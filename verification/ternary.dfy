/**
  Ternary words: ten trits, most significant first, holding an unsigned value
  in 0..59048. The static helpers that work on spans of trits become methods
  on arrays of exactly ten trits; each is proved against the pure functions
  ToInt and ToTrits, whose round trips are proved below.
 */
module Ternary {

  /** Number of trits in a word. */
  const WordSize: nat := 10
  /** Largest value of a word, 3^10 - 1. */
  const MaxValue: nat := 59048
  /** Number of distinct words, 3^10. */
  const WordCount: nat := 59049

  /** A ternary digit: the members Zero, One and Two of the enum are 0, 1 and 2. */
  type Trit = t: int | 0 <= t <= 2

  /** A word, held as its integer value. */
  type Word = v: int | 0 <= v <= MaxValue

  // ---------------------------------------------------------------------------
  // Specification functions
  // ---------------------------------------------------------------------------

  /** Powers of three: a table for 0..9 and a product for larger powers. */
  function Pow3(power: nat): (r: nat)
  {
    match power
    case 0 => 1
    case 1 => 3
    case 2 => 9
    case 3 => 27
    case 4 => 81
    case 5 => 243
    case 6 => 729
    case 7 => 2187
    case 8 => 6561
    case 9 => 19683
    case _ => Pow3(9) * Pow3(power - 9)
  }

  /** 3^n, the plain recursive definition. */
  function Power3(n: nat): (r: nat)
    ensures r >= 1
  {
    if n == 0 then 1 else 3 * Power3(n - 1)
  }

  /** Powers of three add their exponents when multiplied. */
  lemma {:induction false} Power3Add(m: nat, n: nat)
    ensures Power3(m + n) == Power3(m) * Power3(n)
  {
    if n > 0 {
      Power3Add(m, n - 1);
      assert Power3(m) * Power3(n) == Power3(m) * (3 * Power3(n - 1));
    }
  }

  /** The table and its fallback give 3^n for every n. */
  lemma {:induction false} Pow3IsPower(n: nat)
    ensures Pow3(n) == Power3(n)
  {
    if n >= 10 {
      Pow3IsPower(n - 9);
      Power3Add(9, n - 9);
    }
  }

  /** Value of a trit sequence read most significant trit first (Horner's rule). */
  function ToInt(t: seq<Trit>): (v: nat)
  {
    if t == [] then 0 else 3 * ToInt(t[..|t| - 1]) + t[|t| - 1]
  }

  /** A sequence of n trits has a value below 3^n. */
  lemma {:induction false} ToIntBound(t: seq<Trit>)
    ensures ToInt(t) < Power3(|t|)
  {
    if t != [] {
      ToIntBound(t[..|t| - 1]);
    }
  }

  /** The n least significant base-3 digits of v, most significant first. */
  function ToTrits(v: nat, n: nat): (t: seq<Trit>)
    ensures |t| == n
  {
    if n == 0 then [] else ToTrits(v / 3, n - 1) + [v % 3]
  }

  /** v divided by three, k times over: what WriteInt's running quotient holds. */
  function Shift(v: nat, k: nat): nat
  {
    if k == 0 then v else Shift(v / 3, k - 1)
  }

  // ---------------------------------------------------------------------------
  // Arithmetic facts
  // ---------------------------------------------------------------------------

  /** A positive multiple of m is at least m. */
  lemma {:induction false} MulAtLeast(m: int, k: int)
    requires m > 0 && k >= 1
    ensures m * k >= m
  {
    if k > 1 {
      MulAtLeast(m, k - 1);
      assert m * k == m * (k - 1) + m;
    }
  }

  /** A quotient and remainder pair that decomposes v is the one % and / give. */
  lemma DivModUnique(v: int, m: int, q: int, r: int)
    requires m > 0 && 0 <= r < m && v == m * q + r
    ensures v % m == r && v / m == q
  {
    var q', r' := v / m, v % m;
    assert v == m * q' + r';
    if q' > q {
      MulAtLeast(m, q' - q);
      assert false;
    } else if q' < q {
      MulAtLeast(m, q - q');
      assert false;
    }
  }

  /** Taking the low digit off and then the next n digits is taking the low n + 1 digits. */
  lemma DivModNest(v: nat, p: nat)
    requires p > 0
    ensures v % (3 * p) == 3 * ((v / 3) % p) + v % 3
  {
    var q := v / 3;
    assert q == p * (q / p) + q % p;
    assert v == (3 * p) * (q / p) + (3 * (q % p) + v % 3);
    DivModUnique(v, 3 * p, q / p, 3 * (q % p) + v % 3);
  }

  // ---------------------------------------------------------------------------
  // Round trips between trits and integers
  // ---------------------------------------------------------------------------

  /** Writing the low n digits and reading them back gives v modulo 3^n. */
  lemma {:induction false} ToIntToTrits(v: nat, n: nat)
    ensures ToInt(ToTrits(v, n)) == v % Power3(n)
  {
    if n > 0 {
      var t := ToTrits(v, n);
      assert t[..n - 1] == ToTrits(v / 3, n - 1);
      ToIntToTrits(v / 3, n - 1);
      DivModNest(v, Power3(n - 1));
    }
  }

  /** Reading a trit sequence and writing its value back reproduces it exactly. */
  lemma {:induction false} ToTritsToInt(t: seq<Trit>)
    ensures ToTrits(ToInt(t), |t|) == t
  {
    if t != [] {
      var init, last := t[..|t| - 1], t[|t| - 1];
      ToTritsToInt(init);
      DivModUnique(ToInt(t), 3, ToInt(init), last);
      assert ToTrits(ToInt(t), |t|) == ToTrits(ToInt(init), |init|) + [last];
      assert t == init + [last];
    }
  }

  /** For words, the ten-trit round trip is exact. */
  lemma WordRoundTrip(w: Word)
    ensures ToInt(ToTrits(w, WordSize)) == w
  {
    ToIntToTrits(w, WordSize);
  }

  /** Two trit sequences of one length are equal exactly when their values are. */
  lemma SameValueSameTrits(t: seq<Trit>, u: seq<Trit>)
    requires |t| == |u|
    ensures t == u <==> ToInt(t) == ToInt(u)
  {
    ToTritsToInt(t);
    ToTritsToInt(u);
  }

  /** A leading trit x weighs 3^|s|. */
  lemma {:induction false} ToIntPrepend(x: Trit, s: seq<Trit>)
    ensures ToInt([x] + s) == Power3(|s|) * x + ToInt(s)
  {
    if s != [] {
      var init, last := s[..|s| - 1], s[|s| - 1];
      var p := Power3(|init|);
      assert ([x] + s)[..|s|] == [x] + init;
      assert ToInt([x] + s) == 3 * ToInt([x] + init) + last;
      ToIntPrepend(x, init);
      assert ToInt(s) == 3 * ToInt(init) + last;
      assert 3 * (p * x) == (3 * p) * x;
    }
  }

  lemma {:induction false} ShiftStep(v: nat, k: nat)
    ensures Shift(v, k + 1) == Shift(v, k) / 3
  {
    if k > 0 {
      ShiftStep(v / 3, k - 1);
    }
  }

  /** The digit of weight 3^k is the running quotient after k divisions, modulo 3. */
  lemma {:induction false} ToTritsPrepend(v: nat, k: nat)
    ensures ToTrits(v, k + 1) == [Shift(v, k) % 3] + ToTrits(v, k)
  {
    if k > 0 {
      ToTritsPrepend(v / 3, k - 1);
    }
  }

  // ---------------------------------------------------------------------------
  // Conversions on spans
  // ---------------------------------------------------------------------------

  /** Reads the value of a word, adding 3^i times the trit at position 9 - i. */
  method ReadInt(data: array<Trit>) returns (value: int)
    requires data.Length == WordSize
    ensures value == ToInt(data[..])
    ensures 0 <= value <= MaxValue
  {
    var cumulative := 0;
    for i := 0 to WordSize
      invariant cumulative == ToInt(data[WordSize - i..])
    {
      var idx := WordSize - 1 - i;
      ghost var done := data[WordSize - i..];
      assert |done| == i;
      assert data[idx..] == [data[idx]] + done;
      ToIntPrepend(data[idx], done);
      Pow3IsPower(i);
      cumulative := cumulative + Pow3(i) * data[idx];
    }
    assert data[0..] == data[..];
    ToIntBound(data[..]);
    value := cumulative;
  }

  /** Writes the ten low base-3 digits of value, least significant digit last. */
  method WriteInt(data: array<Trit>, value: int)
    requires data.Length == WordSize
    requires value >= 0
    modifies data
    ensures data[..] == ToTrits(value, WordSize)
    ensures ToInt(data[..]) == value % WordCount
  {
    var cumulative := value;
    var idx := WordSize - 1;
    while idx >= 0
      invariant -1 <= idx < WordSize
      invariant cumulative == Shift(value, WordSize - 1 - idx)
      invariant data[idx + 1..] == ToTrits(value, WordSize - 1 - idx)
    {
      ghost var done := data[idx + 1..];
      data[idx] := cumulative % 3;
      assert data[idx..] == [cumulative % 3] + done;
      ToTritsPrepend(value, WordSize - 1 - idx);
      ShiftStep(value, WordSize - 1 - idx);
      cumulative := cumulative / 3;
      idx := idx - 1;
    }
    assert data[0..] == data[..];
    ToIntToTrits(value, WordSize);
  }

  // ---------------------------------------------------------------------------
  // Addition and equality
  // ---------------------------------------------------------------------------

  /**
    Adds two words trit by trit from the least significant end, carrying into
    the next position; the carry out of the top trit is dropped. The target may
    be one of the addends.
   */
  method Add(addend1: array<Trit>, addend2: array<Trit>, writeLocation: array<Trit>)
    requires addend1.Length == WordSize && addend2.Length == WordSize
    requires writeLocation.Length == WordSize
    modifies writeLocation
    ensures ToInt(writeLocation[..]) == (ToInt(old(addend1[..])) + ToInt(old(addend2[..]))) % WordCount
  {
    ghost var x, y := addend1[..], addend2[..];
    var carry: int := 0;
    for i := 0 to WordSize
      invariant 0 <= carry <= 1
      invariant forall j :: 0 <= j < WordSize - i ==> addend1[j] == x[j] && addend2[j] == y[j]
      invariant Balanced(writeLocation[WordSize - i..], x[WordSize - i..], y[WordSize - i..], carry)
    {
      var idx := WordSize - 1 - i;
      ghost var done := writeLocation[WordSize - i..];
      ghost var carryIn := carry;
      var sum: int := addend1[idx] + addend2[idx] + carry;
      writeLocation[idx] := sum % 3;
      carry := sum / 3;
      assert writeLocation[idx..] == [sum % 3] + done;
      assert x[idx..] == [x[idx]] + x[WordSize - i..];
      assert y[idx..] == [y[idx]] + y[WordSize - i..];
      AddStep(done, x[WordSize - i..], y[WordSize - i..], x[idx], y[idx], carryIn, sum % 3, carry);
    }
    assert writeLocation[0..] == writeLocation[..];
    assert x[0..] == x && y[0..] == y;
    AddDropsCarry(writeLocation[..], x, y, carry);
  }

  /**
    The trits written so far, plus the pending carry at the next position,
    weigh what the addends' trits at the same positions weigh.
   */
  predicate Balanced(sum: seq<Trit>, xs: seq<Trit>, ys: seq<Trit>, carry: int)
  {
    |sum| == |xs| == |ys| && ToInt(sum) + carry * Power3(|sum|) == ToInt(xs) + ToInt(ys)
  }

  /**
    Adding one more (more significant) position keeps the running sum balanced:
    the digit written and the carry out together weigh what the two addend
    trits and the carry in weigh.
   */
  lemma AddStep(done: seq<Trit>, xs: seq<Trit>, ys: seq<Trit>, x: Trit, y: Trit,
                carry: int, digit: Trit, carryOut: int)
    requires Balanced(done, xs, ys, carry)
    requires x + y + carry == digit + 3 * carryOut
    ensures Balanced([digit] + done, [x] + xs, [y] + ys, carryOut)
  {
    ToIntPrepend(digit, done);
    ToIntPrepend(x, xs);
    ToIntPrepend(y, ys);
    WeighDigit(x, y, carry, digit, carryOut, Power3(|done|), Power3(|done| + 1));
  }

  /** A balanced full-width sum is the addends' sum with the final carry dropped. */
  lemma AddDropsCarry(sum: seq<Trit>, x: seq<Trit>, y: seq<Trit>, carry: int)
    requires |sum| == WordSize && Balanced(sum, x, y, carry)
    ensures ToInt(sum) == (ToInt(x) + ToInt(y)) % WordCount
  {
    ToIntBound(sum);
    assert Power3(WordSize) == WordCount;
    DivModUnique(ToInt(x) + ToInt(y), WordCount, carry, ToInt(sum));
  }

  /** The digit and the carry out weigh what the trits and the carry in weigh. */
  lemma WeighDigit(x: int, y: int, carry: int, digit: int, carryOut: int, p: int, q: int)
    requires x + y + carry == digit + 3 * carryOut && q == 3 * p
    ensures p * digit + carryOut * q == p * x + p * y + carry * p
  {
    calc {
      p * digit + carryOut * q;
      p * (digit + 3 * carryOut);
      p * (x + y + carry);
    }
  }

  /** Two words are equal when all ten trits match. */
  method Equals(a: array<Trit>, b: array<Trit>) returns (equal: bool)
    requires a.Length == WordSize && b.Length == WordSize
    ensures equal <==> a[..] == b[..]
  {
    for i := 0 to WordSize
      invariant a[..i] == b[..i]
    {
      if a[i] != b[i] {
        assert a[..][i] != b[..][i];
        return false;
      }
    }
    assert a[..] == a[..WordSize] && b[..] == b[..WordSize];
    return true;
  }

  // ---------------------------------------------------------------------------
  // The crazy operation
  // ---------------------------------------------------------------------------

  /** The crazy operation on one trit: a lookup on the trit of d, then on the trit of a. */
  function CrazyTrit(a: Trit, d: Trit): Trit
  {
    match d
    case 0 => (match a case 0 => 1 case 1 => 0 case 2 => 0)
    case 1 => (match a case 0 => 1 case 1 => 0 case 2 => 2)
    case 2 => (match a case 0 => 2 case 1 => 2 case 2 => 1)
  }

  /** The published table, one row per trit of d, one column per trit of a. */
  const CrazyTable: seq<seq<Trit>> := [[1, 0, 0], [1, 0, 2], [2, 2, 1]]

  /** CrazyTrit is the nine-entry table; it is not commutative. */
  lemma CrazyTritIsTable()
    ensures forall a: Trit, d: Trit :: CrazyTrit(a, d) == CrazyTable[d][a]
    ensures CrazyTrit(0, 2) == 2 && CrazyTrit(2, 0) == 0
  {
  }

  /** The crazy operation applied position by position. */
  function Tritwise(a: seq<Trit>, d: seq<Trit>): seq<Trit>
    requires |a| == |d|
  {
    seq(|a|, i requires 0 <= i < |a| => CrazyTrit(a[i], d[i]))
  }

  /** The crazy operation on the low ten trits of two integers, as an integer. */
  function CrazyWord(a: nat, d: nat): Word
  {
    var t := Tritwise(ToTrits(a, WordSize), ToTrits(d, WordSize));
    ToIntBound(t);
    ToInt(t)
  }

  /** Trit i of the result is the crazy operation on trit i of each operand. */
  lemma CrazyWordTrits(a: nat, d: nat)
    ensures ToTrits(CrazyWord(a, d), WordSize) == Tritwise(ToTrits(a, WordSize), ToTrits(d, WordSize))
  {
    ToTritsToInt(Tritwise(ToTrits(a, WordSize), ToTrits(d, WordSize)));
  }

  /** Applies the crazy operation to each position; the destination may alias an operand. */
  method CrazyTrits(a: array<Trit>, d: array<Trit>, destination: array<Trit>)
    requires a.Length == WordSize && d.Length == WordSize && destination.Length == WordSize
    modifies destination
    ensures destination[..] == Tritwise(old(a[..]), old(d[..]))
  {
    ghost var x, y := a[..], d[..];
    for i := 0 to WordSize
      invariant forall j :: i <= j < WordSize ==> a[j] == x[j] && d[j] == y[j]
      invariant forall j :: 0 <= j < i ==> destination[j] == CrazyTrit(x[j], y[j])
    {
      destination[i] := CrazyTrit(a[i], d[i]);
    }
  }

  /** The crazy operation on two integers, through three ten-trit buffers. */
  method Crazy(a: int, d: int) returns (r: int)
    requires a >= 0 && d >= 0
    ensures r == CrazyWord(a, d)
  {
    var aSpan := new Trit[WordSize];
    var dSpan := new Trit[WordSize];
    var result := new Trit[WordSize];
    WriteInt(aSpan, a);
    WriteInt(dSpan, d);
    CrazyTrits(aSpan, dSpan, result);
    r := ReadInt(result);
  }

  // ---------------------------------------------------------------------------
  // Rotation
  // ---------------------------------------------------------------------------

  /** A sequence with its last element moved to the front. */
  function RotateRight(t: seq<Trit>): seq<Trit>
    requires |t| > 0
  {
    [t[|t| - 1]] + t[..|t| - 1]
  }

  /** Rotates a word right by one trit, arithmetically. */
  function Rotr(value: nat): (r: nat)
    ensures value <= MaxValue ==> r <= MaxValue
  {
    if value % 3 == 0 then value / 3
    else if value % 3 == 1 then value / 3 + 19683
    else value / 3 + 39366
  }

  /** The arithmetic rotation moves the least significant trit to the top. */
  lemma RotrRotatesTrits(w: Word)
    ensures Rotr(w) == ToInt(RotateRight(ToTrits(w, WordSize)))
  {
    var t := ToTrits(w, WordSize);
    var high := ToTrits(w / 3, WordSize - 1);
    assert t == high + [w % 3];
    assert RotateRight(t) == [w % 3] + high;
    ToIntPrepend(w % 3, high);
    ToIntToTrits(w / 3, WordSize - 1);
    TopTritWeight();
    DivModUnique(w / 3, 19683, 0, w / 3);
    RotrWeighs(w);
  }

  /** The top trit of a word weighs 3^9. */
  lemma TopTritWeight()
    ensures Power3(WordSize - 1) == 19683
  {
    assert Power3(9) == 19683;
  }

  /** Rotr, as one sum: the low trit moved up to weight 3^9, above the rest shifted down. */
  lemma RotrWeighs(w: Word)
    ensures Rotr(w) == 19683 * (w % 3) + w / 3
  {
  }

  /** Rotates a ten-trit span right by one position in place. */
  method RotrTrits(span: array<Trit>)
    requires span.Length == WordSize
    modifies span
    ensures span[..] == RotateRight(old(span[..]))
  {
    var temp := span[WordSize - 1];
    forall i | 1 <= i < WordSize {
      span[i] := span[i - 1];
    }
    span[0] := temp;
  }

  /** Rotr applied n times. */
  function RotrTimes(w: Word, n: nat): Word
  {
    if n == 0 then w else Rotr(RotrTimes(w, n - 1))
  }

  /** The trits of Rotr(w) are the trits of w rotated right by one place. */
  lemma RotrTritsOfWord(w: Word)
    ensures ToTrits(Rotr(w), WordSize) == RotateRight(ToTrits(w, WordSize))
  {
    RotrRotatesTrits(w);
    ToTritsToInt(RotateRight(ToTrits(w, WordSize)));
  }

  /** Rotating a rotation by one more place. */
  lemma RotateRightOnce(t: seq<Trit>, k: nat)
    requires 1 <= k <= |t|
    ensures RotateRight(t[|t| - k + 1..] + t[..|t| - k + 1]) == t[|t| - k..] + t[..|t| - k]
  {
  }

  /** After k rotations the trits are the original ones rotated by k places. */
  lemma {:induction false} RotrTimesTrits(w: Word, k: nat)
    requires k <= WordSize
    ensures ToTrits(RotrTimes(w, k), WordSize)
         == ToTrits(w, WordSize)[WordSize - k..] + ToTrits(w, WordSize)[..WordSize - k]
  {
    var t := ToTrits(w, WordSize);
    if k == 0 {
      assert t[WordSize..] + t[..WordSize] == t;
    } else {
      RotrTimesTrits(w, k - 1);
      RotrTritsOfWord(RotrTimes(w, k - 1));
      RotateRightOnce(t, k);
    }
  }

  /** Ten rotations give back the original word. */
  lemma RotrTenTimes(w: Word)
    ensures RotrTimes(w, WordSize) == w
  {
    RotrTimesTrits(w, WordSize);
    var t := ToTrits(w, WordSize);
    assert t[0..] + t[..0] == t;
    WordRoundTrip(w);
    WordRoundTrip(RotrTimes(w, WordSize));
  }
}
