/** 32-bit words as numbers, and JavaScript's operators on them: bitwise operators work on the
    32-bit pattern of a number and give a signed result; sums are ordinary numbers, exact below 2^53. */
module Words {

  const WORD_SIZE := 0x1_0000_0000
  const HALF := 0x8000_0000
  const MAX_SAFE := 0x20_0000_0000_0000

  type Word = x: nat | x < WORD_SIZE

  type Byte = x: nat | x < 256

  function Pow2(n: nat): (p: nat)
    ensures p > 0
  {
    if n == 0 then 1 else 2 * Pow2(n - 1)
  }

  // ----- bit patterns

  /** The number whose i-th bit is f of the i-th bits of x and y; f of two zero bits is zero. */
  function Bitwise(f: (bool, bool) -> bool, x: nat, y: nat): nat
    decreases x + y
  {
    if x == 0 && y == 0 then 0 else
      2 * Bitwise(f, x / 2, y / 2) + if f(x % 2 == 1, y % 2 == 1) then 1 else 0
  }

  lemma {:induction false} BitwiseFits(f: (bool, bool) -> bool, x: nat, y: nat, n: nat)
    requires x < Pow2(n) && y < Pow2(n)
    ensures Bitwise(f, x, y) < Pow2(n)
    decreases n
  {
    if n > 0 { BitwiseFits(f, x / 2, y / 2, n - 1); }
  }

  lemma WordBits()
    ensures Pow2(32) == WORD_SIZE
  {
    assert Pow2(8) == 256;
    assert Pow2(16) == 256 * Pow2(8);
    assert Pow2(24) == 256 * Pow2(16);
  }

  lemma WordFits(f: (bool, bool) -> bool, x: Word, y: Word)
    ensures Bitwise(f, x, y) < WORD_SIZE
  {
    WordBits();
    BitwiseFits(f, x, y, 32);
  }

  function BitAnd(a: bool, b: bool): bool { a && b }
  function BitOr(a: bool, b: bool): bool { a || b }
  function BitXor(a: bool, b: bool): bool { a != b }

  function And(x: Word, y: Word): Word {
    WordFits(BitAnd, x, y);
    Bitwise(BitAnd, x, y)
  }

  function Or(x: Word, y: Word): Word {
    WordFits(BitOr, x, y);
    Bitwise(BitOr, x, y)
  }

  function Xor(x: Word, y: Word): Word {
    WordFits(BitXor, x, y);
    Bitwise(BitXor, x, y)
  }

  function Not(x: Word): Word {
    WORD_SIZE - 1 - x
  }

  function ShiftRight(x: Word, n: nat): Word
    decreases n
  {
    if n == 0 then x else ShiftRight(x / 2, n - 1)
  }

  /** Bits shifted out on the left are lost. */
  function ShiftLeft(x: Word, n: nat): Word
    decreases n
  {
    if n == 0 then x else ShiftLeft(2 * x % WORD_SIZE, n - 1)
  }

  lemma {:induction false} Pow2Splits(m: nat, n: nat)
    ensures Pow2(m) * Pow2(n) == Pow2(m + n)
  {
    if m > 0 {
      Pow2Splits(m - 1, n);
      TwiceTimes(Pow2(m - 1), Pow2(n));
      assert Pow2(m + n) == 2 * Pow2(m - 1 + n);
    }
  }

  lemma TwiceTimes(a: nat, b: nat)
    ensures 2 * a * b == 2 * (a * b)
  {
  }

  lemma LessTimes(a: nat, b: nat, c: nat)
    requires a < b && c > 0
    ensures a * c < b * c
  {
  }

  /** Twice a multiple of p, without the bit shifted out, is a multiple of 2 p. */
  lemma DoubledMultiple(x: Word, q: nat, p: nat, c: nat) returns (r: nat)
    requires x == q * p && p > 0 && c * (2 * p) == WORD_SIZE
    ensures 2 * x % WORD_SIZE == r * (2 * p)
  {
    var unit := 2 * p;
    assert 2 * x == q * unit;
    if 2 * x < WORD_SIZE {
      r := q;
    } else {
      if q < c { LessTimes(q, c, unit); }
      r := q - c;
      assert r * unit == q * unit - c * unit;
    }
  }

  /** A word whose bits all lie among the upper n loses them. */
  lemma {:induction false} UpperBitsAreLost(x: Word, n: nat, q: nat)
    requires n <= 32 && x == q * Pow2(32 - n)
    ensures ShiftLeft(x, n) == 0
    decreases n
  {
    WordBits();
    if n == 0 {
      assert x == q * WORD_SIZE;
    } else {
      Pow2Splits(n - 1, 33 - n);
      var r := DoubledMultiple(x, q, Pow2(32 - n), Pow2(n - 1));
      UpperBitsAreLost(2 * x % WORD_SIZE, n - 1, r);
    }
  }

  lemma {:induction false} OrOfOne(x: nat)
    ensures Bitwise(BitOr, x, x) == x && Bitwise(BitOr, x, 0) == x
  {
    if x > 0 { OrOfOne(x / 2); }
  }

  /** Addition modulo 2^32. */
  function Plus(x: Word, y: Word): Word {
    if x + y < WORD_SIZE then x + y else x + y - WORD_SIZE
  }

  lemma PlusIsModulo(x: Word, y: Word)
    ensures Plus(x, y) == (x + y) % WORD_SIZE
  {
  }

  // ----- JavaScript

  function ToUint32(x: int): Word {
    x % WORD_SIZE
  }

  function ToInt32(x: int): int {
    if x % WORD_SIZE < HALF then x % WORD_SIZE else x % WORD_SIZE - WORD_SIZE
  }

  predicate Int32(x: int) {
    -HALF <= x < HALF
  }

  /** The 32-bit pattern of a number that is a signed or an unsigned 32-bit integer. */
  function Pattern(x: int): Word
    requires -HALF <= x < WORD_SIZE
  {
    if x < 0 then x + WORD_SIZE else x
  }

  predicate Exact(x: int) {
    -MAX_SAFE <= x <= MAX_SAFE
  }

  /** A sum of numbers, in the range where doubles are exact. */
  function JsAdd(x: int, y: int): int
    requires Exact(x) && Exact(y) && Exact(x + y)
  {
    x + y
  }

  lemma Reduced(x: int, q: int)
    requires 0 <= x - q * WORD_SIZE < WORD_SIZE
    ensures ToUint32(x) == x - q * WORD_SIZE
  {
  }

  lemma PatternIsToUint32(x: int)
    requires -HALF <= x < WORD_SIZE
    ensures ToUint32(x) == Pattern(x)
  {
    Reduced(x, if x < 0 then -1 else 0);
  }

  lemma SignedPattern(x: Word)
    ensures Int32(ToInt32(x)) && Pattern(ToInt32(x)) == x
  {
    Reduced(x, 0);
  }

  method JsAnd(x: int, y: int) returns (r: int)
    requires -HALF <= x < WORD_SIZE && -HALF <= y < WORD_SIZE
    ensures Int32(r) && Pattern(r) == And(Pattern(x), Pattern(y))
  {
    PatternIsToUint32(x);
    PatternIsToUint32(y);
    r := ToInt32(And(ToUint32(x), ToUint32(y)));
    SignedPattern(And(Pattern(x), Pattern(y)));
  }

  method JsOr(x: int, y: int) returns (r: int)
    requires -HALF <= x < WORD_SIZE && -HALF <= y < WORD_SIZE
    ensures Int32(r) && Pattern(r) == Or(Pattern(x), Pattern(y))
  {
    PatternIsToUint32(x);
    PatternIsToUint32(y);
    r := ToInt32(Or(ToUint32(x), ToUint32(y)));
    SignedPattern(Or(Pattern(x), Pattern(y)));
  }

  method JsXor(x: int, y: int) returns (r: int)
    requires -HALF <= x < WORD_SIZE && -HALF <= y < WORD_SIZE
    ensures Int32(r) && Pattern(r) == Xor(Pattern(x), Pattern(y))
  {
    PatternIsToUint32(x);
    PatternIsToUint32(y);
    r := ToInt32(Xor(ToUint32(x), ToUint32(y)));
    SignedPattern(Xor(Pattern(x), Pattern(y)));
  }

  method JsNot(x: int) returns (r: int)
    requires -HALF <= x < WORD_SIZE
    ensures Int32(r) && Pattern(r) == Not(Pattern(x))
  {
    PatternIsToUint32(x);
    r := ToInt32(Not(ToUint32(x)));
    SignedPattern(Not(Pattern(x)));
  }

  /** What the operators shift by: the low five bits of the amount. */
  function ShiftAmount(n: int): (amount: nat)
    ensures amount < 32 && (0 <= n < 32 ==> amount == n)
  {
    n % 32
  }

  lemma ComplementAmount(n: int)
    ensures ShiftAmount(32 - n) == if ShiftAmount(n) == 0 then 0 else 32 - ShiftAmount(n)
  {
  }

  /** x >>> n */
  method JsShiftRight(x: int, n: int) returns (r: Word)
    requires -HALF <= x < WORD_SIZE
    ensures r == ShiftRight(Pattern(x), ShiftAmount(n))
  {
    PatternIsToUint32(x);
    r := ShiftRight(ToUint32(x), ShiftAmount(n));
  }

  /** x << n */
  method JsShiftLeft(x: int, n: int) returns (r: int)
    requires -HALF <= x < WORD_SIZE
    ensures Int32(r) && Pattern(r) == ShiftLeft(Pattern(x), ShiftAmount(n))
  {
    PatternIsToUint32(x);
    r := ToInt32(ShiftLeft(ToUint32(x), ShiftAmount(n)));
    SignedPattern(ShiftLeft(Pattern(x), ShiftAmount(n)));
  }

  /** Halving n times, rounding down. */
  function Halved(x: int, n: nat): int
    decreases n
  {
    if n == 0 then x else Halved(x / 2, n - 1)
  }

  /** x >> n, which copies the sign */
  function JsSignedShiftRight(x: int, n: int): int {
    Halved(ToInt32(x), ShiftAmount(n))
  }

  // ----- sums, reduced once at the end where the standard reduces at every addition

  lemma SumModulo(x: int, y: int)
    ensures ToUint32(x + y) == Plus(ToUint32(x), ToUint32(y))
  {
    var p, q := x / WORD_SIZE, y / WORD_SIZE;
    Reduced(x + y, if ToUint32(x) + ToUint32(y) < WORD_SIZE then p + q else p + q + 1);
  }

  /** (x + y) >>> 0 */
  method SumOfTwo(x: int, y: int) returns (r: Word)
    requires -HALF <= x < WORD_SIZE && -HALF <= y < WORD_SIZE
    ensures r == Plus(Pattern(x), Pattern(y))
  {
    r := ToUint32(JsAdd(x, y));
    SumModulo(x, y);
    PatternIsToUint32(x);
    PatternIsToUint32(y);
  }

  lemma SumStep(sum: int, word: Word, x: int)
    requires ToUint32(sum) == word && -HALF <= x < WORD_SIZE
    ensures ToUint32(sum + x) == Plus(word, Pattern(x))
  {
    SumModulo(sum, x);
    PatternIsToUint32(x);
  }

  /** (p + q + r + s) >>> 0, whose terms the standard adds in the order s, r, q, p. */
  method SumOfFour(p: int, q: int, r: int, s: int) returns (sum: Word)
    requires -HALF <= p < WORD_SIZE && -HALF <= q < WORD_SIZE && -HALF <= r < WORD_SIZE && -HALF <= s < WORD_SIZE
    ensures sum == Plus(Plus(Plus(Pattern(s), Pattern(r)), Pattern(q)), Pattern(p))
  {
    hide Plus, Pattern, ToUint32;
    PatternIsToUint32(s);
    SumStep(s, Pattern(s), r);
    SumStep(s + r, Plus(Pattern(s), Pattern(r)), q);
    SumStep(s + r + q, Plus(Plus(Pattern(s), Pattern(r)), Pattern(q)), p);
    sum := ToUint32(JsAdd(JsAdd(JsAdd(p, q), r), s));
    assert p + q + r + s == s + r + q + p;
  }

  /** (p + q + r + s + t) >>> 0 */
  method SumOfFive(p: int, q: int, r: int, s: int, t: int) returns (sum: Word)
    requires -HALF <= p < WORD_SIZE && -HALF <= q < WORD_SIZE && -HALF <= r < WORD_SIZE && -HALF <= s < WORD_SIZE && -HALF <= t < WORD_SIZE
    ensures sum == Plus(Plus(Plus(Plus(Pattern(p), Pattern(q)), Pattern(r)), Pattern(s)), Pattern(t))
  {
    hide Plus, Pattern, ToUint32;
    PatternIsToUint32(p);
    SumStep(p, Pattern(p), q);
    SumStep(p + q, Plus(Pattern(p), Pattern(q)), r);
    SumStep(p + q + r, Plus(Plus(Pattern(p), Pattern(q)), Pattern(r)), s);
    SumStep(p + q + r + s, Plus(Plus(Plus(Pattern(p), Pattern(q)), Pattern(r)), Pattern(s)), t);
    sum := ToUint32(JsAdd(JsAdd(JsAdd(JsAdd(p, q), r), s), t));
  }
}
