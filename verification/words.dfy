/**
  Fixed-width unsigned words. The engine is instantiated with a 32-bit
  unsigned `Integer` type; a word is kept here as its WIDTH bits, least
  significant bit first, so that `w[j]` is bit `j` of the integer.
  `Value` gives the integer a word stands for, which ties the masks below
  to the integer expressions the engine computes them with.
*/
module Words {

  const WIDTH: nat := 32

  type Word = w: seq<bool> | |w| == WIDTH witness seq(WIDTH, _ => false)

  /** The integer 0. */
  function Zero(): (r: Word)
    ensures forall j | 0 <= j < WIDTH :: !r[j]
  {
    seq(WIDTH, _ => false)
  }

  /** Bitwise `&`. */
  function And(x: Word, y: Word): (r: Word)
    ensures forall j | 0 <= j < WIDTH :: r[j] == (x[j] && y[j])
  {
    seq(WIDTH, j requires 0 <= j < WIDTH => x[j] && y[j])
  }

  /** Bitwise `|`. */
  function Or(x: Word, y: Word): (r: Word)
    ensures forall j | 0 <= j < WIDTH :: r[j] == (x[j] || y[j])
  {
    seq(WIDTH, j requires 0 <= j < WIDTH => x[j] || y[j])
  }

  /** Bitwise `^`. */
  function Xor(x: Word, y: Word): (r: Word)
    ensures forall j | 0 <= j < WIDTH :: r[j] == (x[j] != y[j])
  {
    seq(WIDTH, j requires 0 <= j < WIDTH => x[j] != y[j])
  }

  /** Bitwise `~`. */
  function Not(x: Word): (r: Word)
    ensures forall j | 0 <= j < WIDTH :: r[j] == !x[j]
  {
    seq(WIDTH, j requires 0 <= j < WIDTH => !x[j])
  }

  /** `Integer(1) << i`: the word whose only set bit is bit `i`. */
  function OneHot(i: nat): (r: Word)
    requires i < WIDTH
    ensures forall j | 0 <= j < WIDTH :: r[j] == (j == i)
  {
    seq(WIDTH, j => j == i)
  }

  /** `(Integer(1) << k) - Integer(1)`: the word whose `k` low bits are set. */
  function LowMask(k: nat): (r: Word)
    requires k <= WIDTH
    ensures forall j | 0 <= j < WIDTH :: r[j] == (j < k)
  {
    seq(WIDTH, j => j < k)
  }

  /** The word holds a value below 2^bits: no bit at or above `bits` is set. */
  predicate Fits(w: Word, bits: nat)
  {
    forall j | bits <= j < WIDTH :: !w[j]
  }

  function Pow2(n: nat): (r: nat)
    ensures r >= 1
  {
    if n == 0 then 1 else 2 * Pow2(n - 1)
  }

  /** The integer held by the `n` low bits of `w`. */
  function LowValue(w: Word, n: nat): nat
    requires n <= WIDTH
  {
    if n == 0 then 0 else LowValue(w, n - 1) + (if w[n - 1] then Pow2(n - 1) else 0)
  }

  /** The unsigned integer a word stands for. */
  function Value(w: Word): nat
  {
    LowValue(w, WIDTH)
  }

  lemma {:induction false} LowValueBound(w: Word, n: nat)
    requires n <= WIDTH
    ensures LowValue(w, n) < Pow2(n)
  {
    if n > 0 {
      LowValueBound(w, n - 1);
    }
  }

  lemma {:induction false} LowValueOfOneHot(i: nat, n: nat)
    requires i < WIDTH && n <= WIDTH
    ensures LowValue(OneHot(i), n) == if i < n then Pow2(i) else 0
  {
    if n > 0 {
      LowValueOfOneHot(i, n - 1);
    }
  }

  lemma {:induction false} LowValueOfLowMask(k: nat, n: nat)
    requires k <= WIDTH && n <= WIDTH
    ensures LowValue(LowMask(k), n) == if n <= k then Pow2(n) - 1 else Pow2(k) - 1
  {
    if n > 0 {
      LowValueOfLowMask(k, n - 1);
    }
  }

  /** `OneHot(i)` is the integer `1 << i`. */
  lemma OneHotValue(i: nat)
    requires i < WIDTH
    ensures Value(OneHot(i)) == Pow2(i)
  {
    LowValueOfOneHot(i, WIDTH);
  }

  /** `LowMask(k)` is the integer `(1 << k) - 1`. */
  lemma LowMaskValue(k: nat)
    requires k <= WIDTH
    ensures Value(LowMask(k)) == Pow2(k) - 1
  {
    LowValueOfLowMask(k, WIDTH);
  }

  lemma {:induction false} LowValueHigh(w: Word, bits: nat, n: nat)
    requires bits <= n <= WIDTH
    requires forall j | bits <= j < n :: !w[j]
    ensures LowValue(w, n) == LowValue(w, bits)
  {
    if n > bits {
      LowValueHigh(w, bits, n - 1);
    }
  }

  lemma {:induction false} Pow2Monotone(a: nat, b: nat)
    requires a <= b
    ensures Pow2(a) <= Pow2(b)
  {
    if a < b {
      Pow2Monotone(a, b - 1);
    }
  }

  /** A word fits in `bits` bits exactly when its value is below 2^bits. */
  lemma {:induction false} FitsIffBelow(w: Word, bits: nat)
    requires bits <= WIDTH
    ensures Fits(w, bits) <==> Value(w) < Pow2(bits)
  {
    if Fits(w, bits) {
      LowValueHigh(w, bits, WIDTH);
      LowValueBound(w, bits);
    } else {
      var j :| bits <= j < WIDTH && w[j];
      HighBitValue(w, j, WIDTH);
      Pow2Monotone(bits, j);
    }
  }

  lemma {:induction false} HighBitValue(w: Word, j: nat, n: nat)
    requires j < n <= WIDTH && w[j]
    ensures LowValue(w, n) >= Pow2(j)
  {
    if n - 1 > j {
      HighBitValue(w, j, n - 1);
    }
  }
}
