/**
  Seeding of unused memory. After the program is loaded, the cells past it are
  filled from the sequence in which each word is the crazy operation of the two
  before it, starting from the last two program words. The interpreter computes
  one stretch of that sequence and tiles it over the rest of memory.

  Every trit position of the sequence evolves on its own (the crazy operation
  works trit by trit), and each of the nine trit pairs has period 3 or 4 from
  the first generated element on. So the word sequence repeats with a period
  dividing 12, and element 13 always equals the second seed word: both loops
  below end after at most a dozen elements.
 */
module Seed {
  import opened Ternary

  /**
    Element n of the generated sequence: elements 0 and 1 are the seed words,
    each later one the crazy operation of the two before. The interpreter's
    wordSeq[k] is element k + 2.
   */
  function Generated(first: Word, second: Word, n: nat): Word
  {
    if n == 0 then first
    else if n == 1 then second
    else CrazyWord(Generated(first, second, n - 2), Generated(first, second, n - 1))
  }

  /** The same recurrence on a single trit position. */
  function GeneratedTrit(f: Trit, s: Trit, n: nat): Trit
  {
    if n == 0 then f
    else if n == 1 then s
    else CrazyTrit(GeneratedTrit(f, s, n - 2), GeneratedTrit(f, s, n - 1))
  }

  /** Trit i of element n depends only on trit i of the two seed words. */
  lemma {:induction false} GeneratedTrits(first: Word, second: Word, n: nat)
    ensures forall i :: 0 <= i < WordSize ==>
      ToTrits(Generated(first, second, n), WordSize)[i]
        == GeneratedTrit(ToTrits(first, WordSize)[i], ToTrits(second, WordSize)[i], n)
  {
    if n >= 2 {
      GeneratedTrits(first, second, n - 2);
      GeneratedTrits(first, second, n - 1);
      CrazyWordTrits(Generated(first, second, n - 2), Generated(first, second, n - 1));
    }
  }

  /**
    For each of the nine trit pairs: element 13 is the second seed trit, and
    elements 14 and 15 repeat elements 2 and 3 (the periods are 3 and 4).
   */
  lemma TritCycle(f: Trit, s: Trit)
    ensures GeneratedTrit(f, s, 13) == s
    ensures GeneratedTrit(f, s, 14) == GeneratedTrit(f, s, 2)
    ensures GeneratedTrit(f, s, 15) == GeneratedTrit(f, s, 3)
  {
    if f == 0 && s == 0 {
    } else if f == 0 && s == 1 {
    } else if f == 0 && s == 2 {
    } else if f == 1 && s == 0 {
    } else if f == 1 && s == 1 {
    } else if f == 1 && s == 2 {
    } else if f == 2 && s == 0 {
    } else if f == 2 && s == 1 {
    } else {
    }
  }

  /** Two words with the same ten trits are the same word. */
  lemma SameTritsSameWord(x: Word, y: Word)
    requires forall i :: 0 <= i < WordSize ==> ToTrits(x, WordSize)[i] == ToTrits(y, WordSize)[i]
    ensures x == y
  {
    assert ToTrits(x, WordSize) == ToTrits(y, WordSize);
    WordRoundTrip(x);
    WordRoundTrip(y);
  }

  /** The word-level cycle facts: element 13 is second; elements 14, 15 repeat 2, 3. */
  lemma GeneratedCycle(first: Word, second: Word)
    ensures Generated(first, second, 13) == second
    ensures Generated(first, second, 14) == Generated(first, second, 2)
    ensures Generated(first, second, 15) == Generated(first, second, 3)
  {
    GeneratedTrits(first, second, 2);
    GeneratedTrits(first, second, 3);
    GeneratedTrits(first, second, 13);
    GeneratedTrits(first, second, 14);
    GeneratedTrits(first, second, 15);
    forall i | 0 <= i < WordSize
      ensures ToTrits(Generated(first, second, 13), WordSize)[i] == ToTrits(second, WordSize)[i]
      ensures ToTrits(Generated(first, second, 14), WordSize)[i] == ToTrits(Generated(first, second, 2), WordSize)[i]
      ensures ToTrits(Generated(first, second, 15), WordSize)[i] == ToTrits(Generated(first, second, 3), WordSize)[i]
    {
      TritCycle(ToTrits(first, WordSize)[i], ToTrits(second, WordSize)[i]);
    }
    SameTritsSameWord(Generated(first, second, 13), second);
    SameTritsSameWord(Generated(first, second, 14), Generated(first, second, 2));
    SameTritsSameWord(Generated(first, second, 15), Generated(first, second, 3));
  }

  // ---------------------------------------------------------------------------
  // The seeding loop as written
  // ---------------------------------------------------------------------------

  /**
    The loop's exit test for a sequence of n elements: its second-to-last
    element is the first seed word, or its last element is the second one.
   */
  predicate Stops(first: Word, second: Word, n: nat)
  {
    Generated(first, second, n) == first || Generated(first, second, n + 1) == second
  }

  /** The least length from n on at which the loop stops; it is at most 12. */
  function StopLength(first: Word, second: Word, n: nat): (len: nat)
    requires 2 <= n <= 12
    ensures n <= len <= 12 && Stops(first, second, len)
    ensures forall j :: n <= j < len ==> !Stops(first, second, j)
    decreases 12 - n
  {
    if n == 12 || Stops(first, second, n) then
      GeneratedCycle(first, second);
      n
    else
      StopLength(first, second, n + 1)
  }

  /** The sequence the loop builds: elements 2 onwards, up to the first stop. */
  function SeedPeriod(first: Word, second: Word): (period: seq<Word>)
    ensures 2 <= |period| <= 12
  {
    var len := StopLength(first, second, 2);
    seq(len, k requires 0 <= k < len => Generated(first, second, k + 2))
  }

  /**
    The period starts crz(first, second), crz(second, that); each later word is
    crz of the two before; it ends at the first length where the second-to-last
    word is first or the last is second.
   */
  lemma SeedPeriodShape(first: Word, second: Word)
    ensures var p := SeedPeriod(first, second);
      && p[0] == CrazyWord(first, second)
      && p[1] == CrazyWord(second, p[0])
      && (forall k :: 2 <= k < |p| ==> p[k] == CrazyWord(p[k - 2], p[k - 1]))
      && (p[|p| - 2] == first || p[|p| - 1] == second)
      && (forall k :: 0 <= k < |p| - 2 ==> p[k] != first)
      && (forall k :: 1 <= k < |p| - 1 ==> p[k] != second)
  {
    var p := SeedPeriod(first, second);
    assert p[0] == Generated(first, second, 2);
    assert p[1] == Generated(first, second, 3);
    forall k | 2 <= k < |p|
      ensures p[k] == CrazyWord(p[k - 2], p[k - 1])
    {
      assert p[k] == Generated(first, second, k + 2);
    }
    forall k | 0 <= k < |p| - 2
      ensures p[k] != first
    {
      assert !Stops(first, second, k + 2);
    }
    forall k | 1 <= k < |p| - 1
      ensures p[k] != second
    {
      assert !Stops(first, second, k + 1);
    }
  }

  /** w holds elements 2, 3, ... of the generated sequence, in order. */
  predicate Elements(first: Word, second: Word, w: seq<Word>)
  {
    forall k :: 0 <= k < |w| ==> w[k] == Generated(first, second, k + 2)
  }

  /** The two words both loops start from are elements 2 and 3. */
  lemma ElementsStart(first: Word, second: Word)
    ensures Elements(first, second, [CrazyWord(first, second), CrazyWord(second, CrazyWord(first, second))])
  {
    assert Generated(first, second, 2) == CrazyWord(first, second);
    assert Generated(first, second, 3) == CrazyWord(second, CrazyWord(first, second));
  }

  /** Appending crz of the last two words appends the next element. */
  lemma ElementsExtend(first: Word, second: Word, w: seq<Word>)
    requires 2 <= |w| && Elements(first, second, w)
    ensures Elements(first, second, w + [CrazyWord(w[|w| - 2], w[|w| - 1])])
  {
    var n := |w|;
    assert Generated(first, second, n + 2)
      == CrazyWord(Generated(first, second, n), Generated(first, second, n + 1));
  }

  /** The first length from 2 at which the loop stops is StopLength. */
  lemma StopLengthIs(first: Word, second: Word, n: nat)
    requires 2 <= n <= 12 && Stops(first, second, n)
    requires forall j :: 2 <= j < n ==> !Stops(first, second, j)
    ensures StopLength(first, second, 2) == n
  {
    var len := StopLength(first, second, 2);
    assert Stops(first, second, len);
  }

  /** A sequence of the right length holding elements 2 onwards is the period. */
  lemma SeedPeriodFromElements(first: Word, second: Word, w: seq<Word>)
    requires |w| == StopLength(first, second, 2)
    requires Elements(first, second, w)
    ensures w == SeedPeriod(first, second)
  {
  }

  /**
    Builds the seed sequence as the interpreter does: start with crz(first,
    second) and crz(second, that), and append crz of the last two while the
    second-to-last differs from first and the last differs from second.
   */
  method Seed(first: Word, second: Word) returns (wordSeq: seq<Word>)
    ensures wordSeq == SeedPeriod(first, second)
  {
    GeneratedCycle(first, second);
    var third := Crazy(first, second);
    var fourth := Crazy(second, third);
    wordSeq := [third, fourth];
    ElementsStart(first, second);
    while |wordSeq| < 2 || (first != wordSeq[|wordSeq| - 2] && second != wordSeq[|wordSeq| - 1])
      invariant 2 <= |wordSeq| <= 12
      invariant Elements(first, second, wordSeq)
      invariant forall j :: 2 <= j < |wordSeq| ==> !Stops(first, second, j)
      decreases 12 - |wordSeq|
    {
      assert !Stops(first, second, |wordSeq|);
      var newWord := Crazy(wordSeq[|wordSeq| - 2], wordSeq[|wordSeq| - 1]);
      ElementsExtend(first, second, wordSeq);
      wordSeq := wordSeq + [newWord];
    }
    StopLengthIs(first, second, |wordSeq|);
    SeedPeriodFromElements(first, second, wordSeq);
  }

  /** Starting from a repeated word w, element 4 of the sequence is w again. */
  lemma SameSeedFourth(w: Word)
    ensures Generated(w, w, 4) == w
  {
    var t := ToTrits(w, WordSize);
    GeneratedTrits(w, w, 4);
    forall i | 0 <= i < WordSize
      ensures ToTrits(Generated(w, w, 4), WordSize)[i] == t[i]
    {
      var x := t[i];
      assert GeneratedTrit(x, x, 4) == x by {
        if x == 0 {} else if x == 1 {} else {}
      }
    }
    SameTritsSameWord(Generated(w, w, 4), w);
  }

  /** The lowest trit of elements 2, 3 and 5 from the seed pair 33, 33. */
  lemma LowTrits33()
    ensures ToTrits(Generated(33, 33, 2), WordSize)[9] == 1
    ensures ToTrits(Generated(33, 33, 3), WordSize)[9] == 1
    ensures ToTrits(Generated(33, 33, 5), WordSize)[9] == 0
  {
    var t := ToTrits(33, WordSize);
    assert t[9] == 0;
    GeneratedTrits(33, 33, 2);
    GeneratedTrits(33, 33, 3);
    GeneratedTrits(33, 33, 5);
  }

  /**
    The stop test lets a period end when only one of the two seed words has
    come back. For the seed pair 33, 33 (a program ending in "!!") the period
    has three words, so the tiled cell after it repeats element 2, while the
    recurrence gives element 5, a different word.
   */
  lemma SeedPeriodMisses()
    ensures |SeedPeriod(33, 33)| == 3
    ensures SeedPeriod(33, 33)[3 % 3] != Generated(33, 33, 3 + 2)
  {
    SameSeedFourth(33);
    LowTrits33();
    assert !Stops(33, 33, 2);
    assert Stops(33, 33, 3);
  }

  // ---------------------------------------------------------------------------
  // The corrected seeding: stop when the first generated pair comes back
  // ---------------------------------------------------------------------------

  /** Elements p + 2 and p + 3 repeat elements 2 and 3: the sequence has period p. */
  predicate Repeats(first: Word, second: Word, p: nat)
  {
    Generated(first, second, p + 2) == Generated(first, second, 2)
    && Generated(first, second, p + 3) == Generated(first, second, 3)
  }

  /** The least period from p on; it is at most 12. */
  function CycleLength(first: Word, second: Word, p: nat): (len: nat)
    requires 1 <= p <= 12
    ensures p <= len <= 12 && Repeats(first, second, len)
    ensures forall j :: p <= j < len ==> !Repeats(first, second, j)
    decreases 12 - p
  {
    if p == 12 || Repeats(first, second, p) then
      GeneratedCycle(first, second);
      p
    else
      CycleLength(first, second, p + 1)
  }

  /** One full period of the generated sequence, from element 2. */
  function Cycle(first: Word, second: Word): (cycle: seq<Word>)
    ensures 1 <= |cycle| <= 12
  {
    var len := CycleLength(first, second, 1);
    seq(len, k requires 0 <= k < len => Generated(first, second, k + 2))
  }

  /** Once a pair of elements repeats, everything after it repeats with the same period. */
  lemma {:induction false} GeneratedPeriodic(first: Word, second: Word, p: nat, k: nat)
    requires Repeats(first, second, p) && k >= 2
    ensures Generated(first, second, k + p) == Generated(first, second, k)
    decreases k
  {
    if k >= 4 {
      GeneratedPeriodic(first, second, p, k - 2);
      GeneratedPeriodic(first, second, p, k - 1);
    }
  }

  /** Stepping back one period keeps the position within the period. */
  lemma ModStepBack(i: nat, p: nat)
    requires 0 < p <= i
    ensures (i - p) % p == i % p
  {
    assert i - p == p * (i / p - 1) + i % p;
    DivModUnique(i - p, p, i / p - 1, i % p);
  }

  /** With period p, element i + 2 is element i % p + 2. */
  lemma {:induction false} PeriodicReduce(first: Word, second: Word, p: nat, i: nat)
    requires 1 <= p && Repeats(first, second, p)
    ensures Generated(first, second, i % p + 2) == Generated(first, second, i + 2)
    decreases i
  {
    if i >= p {
      PeriodicReduce(first, second, p, i - p);
      ModStepBack(i, p);
      GeneratedPeriodic(first, second, p, i - p + 2);
    } else {
      DivModUnique(i, p, 0, i);
    }
  }

  /** Tiling the cycle reproduces the generated sequence at every position. */
  lemma CycleTilesGenerator(first: Word, second: Word, i: nat)
    ensures Cycle(first, second)[i % |Cycle(first, second)|] == Generated(first, second, i + 2)
  {
    var cycle := Cycle(first, second);
    var p := |cycle|;
    assert p == CycleLength(first, second, 1);
    assert Repeats(first, second, p);
    var j := i % p;
    assert cycle[j] == Generated(first, second, j + 2);
    PeriodicReduce(first, second, p, i);
  }

  /** The least period from 1 is CycleLength. */
  lemma CycleLengthIs(first: Word, second: Word, p: nat)
    requires 1 <= p <= 12 && Repeats(first, second, p)
    requires forall j :: 1 <= j < p ==> !Repeats(first, second, j)
    ensures CycleLength(first, second, 1) == p
  {
    var len := CycleLength(first, second, 1);
    assert Repeats(first, second, len);
  }

  /** A sequence of the cycle's length holding elements 2 onwards is the cycle. */
  lemma CycleFromElements(first: Word, second: Word, w: seq<Word>)
    requires |w| == CycleLength(first, second, 1)
    requires Elements(first, second, w)
    ensures w == Cycle(first, second)
  {
  }

  /**
    Builds one period of the seed sequence: the source's loop with the stop
    test comparing the last two words against the first two generated ones,
    both of which must match; the two repeated words are then dropped.
   */
  method SeedCycle(first: Word, second: Word) returns (wordSeq: seq<Word>)
    ensures wordSeq == Cycle(first, second)
  {
    GeneratedCycle(first, second);
    var third := Crazy(first, second);
    var fourth := Crazy(second, third);
    wordSeq := [third, fourth];
    ElementsStart(first, second);
    while |wordSeq| < 3 || third != wordSeq[|wordSeq| - 2] || fourth != wordSeq[|wordSeq| - 1]
      invariant 2 <= |wordSeq| <= 14
      invariant Elements(first, second, wordSeq)
      invariant forall j :: 1 <= j < |wordSeq| - 2 ==> !Repeats(first, second, j)
      decreases 14 - |wordSeq|
    {
      if |wordSeq| >= 3 {
        assert !Repeats(first, second, |wordSeq| - 2);
      }
      var newWord := Crazy(wordSeq[|wordSeq| - 2], wordSeq[|wordSeq| - 1]);
      ElementsExtend(first, second, wordSeq);
      wordSeq := wordSeq + [newWord];
    }
    var p := |wordSeq| - 2;
    assert Repeats(first, second, p);
    CycleLengthIs(first, second, p);
    wordSeq := wordSeq[..p];
    CycleFromElements(first, second, wordSeq);
  }
}
