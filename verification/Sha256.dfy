/** The browser's SHA-256, operator by operator as JavaScript evaluates it, against FIPS 180-4.
    frontend/src/sha256.js:1-81 */
module Sha256 {
  import opened Fips180
  import opened Options
  import opened Words

  // ----- the functions of section 4.1.2

  /** For every amount: a multiple of 32 shifts both ways by nothing. */
  method RightRotate(value: int, amount: int) returns (r: int)
    requires -HALF <= value < WORD_SIZE
    ensures Int32(r) && Pattern(r) == ROTR(ShiftAmount(amount), Pattern(value))
  {
    hide Or, ShiftRight, ShiftLeft, ShiftAmount, ROTR;
    RotateParts(Pattern(value), amount);
    var right := JsShiftRight(value, amount);
    var left := JsShiftLeft(value, 32 - amount);
    r := JsOr(right, left);
  }

  lemma RotateParts(x: Word, amount: int)
    ensures Or(ShiftRight(x, ShiftAmount(amount)), ShiftLeft(x, ShiftAmount(32 - amount))) == ROTR(ShiftAmount(amount), x)
  {
    hide ShiftAmount, Bitwise;
    ComplementAmount(amount);
    if ShiftAmount(amount) == 0 {
      assert x == x * Pow2(0);
      UpperBitsAreLost(x, 32, x);
      OrOfOne(x);
    }
  }

  method SmallSigma(x: Word, r1: nat, r2: nat, shift: nat) returns (s: int)
    requires r1 < 32 && r2 < 32 && shift < 32
    ensures Int32(s) && Pattern(s) == Xor(Xor(ROTR(r1, x), ROTR(r2, x)), ShiftRight(x, shift))
  {
    hide ShiftAmount, ROTR, Xor, ShiftRight;
    var a := RightRotate(x, r1);
    var b := RightRotate(x, r2);
    var ab := JsXor(a, b);
    var c := JsShiftRight(x, shift);
    s := JsXor(ab, c);
  }

  method BigSigma(x: Word, r1: nat, r2: nat, r3: nat) returns (s: int)
    requires r1 < 32 && r2 < 32 && r3 < 32
    ensures Int32(s) && Pattern(s) == Xor(Xor(ROTR(r1, x), ROTR(r2, x)), ROTR(r3, x))
  {
    hide ShiftAmount, ROTR, Xor, ShiftRight;
    var a := RightRotate(x, r1);
    var b := RightRotate(x, r2);
    var ab := JsXor(a, b);
    var c := RightRotate(x, r3);
    s := JsXor(ab, c);
  }

  method Choose(e: Word, f: Word, g: Word) returns (ch: int)
    ensures Int32(ch) && Pattern(ch) == Ch(e, f, g)
  {
    var ef := JsAnd(e, f);
    var ne := JsNot(e);
    var neg := JsAnd(ne, g);
    ch := JsXor(ef, neg);
  }

  method Majority(a: Word, b: Word, c: Word) returns (maj: int)
    ensures Int32(maj) && Pattern(maj) == Maj(a, b, c)
  {
    var ab := JsAnd(a, b);
    var ac := JsAnd(a, c);
    var bc := JsAnd(b, c);
    var abac := JsXor(ab, ac);
    maj := JsXor(abac, bc);
  }

  // ----- one round and one block

  method TakeRound(s: State, k: Word, w: Word) returns (next: State)
    ensures next == Round(s, k, w)
  {
    var S1 := BigSigma(s.e, 6, 11, 25);
    var ch := Choose(s.e, s.f, s.g);
    var temp1 := SumOfFive(s.h, S1, ch, k, w);
    var S0 := BigSigma(s.a, 2, 13, 22);
    var maj := Majority(s.a, s.b, s.c);
    var temp2 := SumOfTwo(S0, maj);
    var e := SumOfTwo(s.d, temp1);
    var a := SumOfTwo(temp1, temp2);
    next := State(a, s.a, s.b, s.c, e, s.e, s.f, s.g);
  }

  /** Fills w with the message schedule of a block. */
  method FillSchedule(w: array<Word>, block: seq<Byte>)
    requires w.Length == 64 && |block| == 64
    modifies w
    ensures forall t :: 0 <= t < 64 ==> w[t] == Schedule(block, t)
  {
    hide *;
    for i := 0 to 16
      invariant forall t :: 0 <= t < i ==> w[t] == Schedule(block, t)
    {
      ScheduleStart(block, i);
      w[i] := WordAt(block, i);
    }
    for i := 16 to 64
      invariant forall t :: 0 <= t < i ==> w[t] == Schedule(block, t)
    {
      var next := NextWord(w[i - 16], w[i - 15], w[i - 7], w[i - 2]);
      ScheduleStep(block, i, w[i - 16], w[i - 15], w[i - 7], w[i - 2]);
      w[i] := next;
    }
  }

  lemma ScheduleStart(block: seq<Byte>, t: nat)
    requires |block| == 64 && t < 16
    ensures Schedule(block, t) == WordAt(block, t)
  {
  }

  lemma ScheduleStep(block: seq<Byte>, t: nat, w16: Word, w15: Word, w7: Word, w2: Word)
    requires |block| == 64 && t >= 16
    requires w16 == Schedule(block, t - 16) && w15 == Schedule(block, t - 15)
    requires w7 == Schedule(block, t - 7) && w2 == Schedule(block, t - 2)
    ensures Schedule(block, t) == Plus(Plus(Plus(SmallSigma1(w2), w7), SmallSigma0(w15)), w16)
  {
  }

  method NextWord(w16: Word, w15: Word, w7: Word, w2: Word) returns (next: Word)
    ensures next == Plus(Plus(Plus(SmallSigma1(w2), w7), SmallSigma0(w15)), w16)
  {
    var s0 := SmallSigma(w15, 7, 18, 3);
    var s1 := SmallSigma(w2, 17, 19, 10);
    next := SumOfFour(w16, s0, w7, s1);
  }

  method AddHash(hash: State, s: State) returns (next: State)
    ensures next == AddStates(s, hash)
  {
    var a := SumOfTwo(hash.a, s.a);
    var b := SumOfTwo(hash.b, s.b);
    var c := SumOfTwo(hash.c, s.c);
    var d := SumOfTwo(hash.d, s.d);
    var e := SumOfTwo(hash.e, s.e);
    var f := SumOfTwo(hash.f, s.f);
    var g := SumOfTwo(hash.g, s.g);
    var h := SumOfTwo(hash.h, s.h);
    next := State(a, b, c, d, e, f, g, h);
  }

  method CompressBlock(hash: State, w: array<Word>, block: seq<Byte>) returns (next: State)
    requires w.Length == 64 && |block| == 64
    modifies w
    ensures next == Compress(hash, block)
  {
    FillSchedule(w, block);
    var s := hash;
    for i := 0 to 64
      invariant s == Rounds(hash, block, i)
      invariant forall t :: 0 <= t < 64 ==> w[t] == Schedule(block, t)
    {
      s := TakeRound(s, K[i], w[i]);
    }
    next := AddHash(hash, s);
  }

  // ----- padding

  /** The length from which the length field would need its upper 32 bits. */
  const SMALL := 0x2000_0000

  /** The length from which the padded length no longer fits a signed 32-bit integer. */
  const LIMIT := 0x8000_0000 - 72

  /** ((((length + 8) >> 6) + 1) << 6) */
  function PaddedLength(length: nat): int {
    JsShiftLeftValue(JsSignedShiftRight(length + 8, 6) + 1, 6)
  }

  function JsShiftLeftValue(x: int, n: int): int {
    ToInt32(ShiftLeft(ToUint32(x), ShiftAmount(n)))
  }

  lemma HalvedSixTimes(x: int)
    ensures Halved(x, 6) == x / 64
  {
    assert Halved(x, 6) == x / 2 / 2 / 2 / 2 / 2 / 2;
  }

  lemma ShiftOnce(x: Word, n: nat, q: int)
    requires n > 0 && 0 <= 2 * x - q * WORD_SIZE < WORD_SIZE
    ensures ShiftLeft(x, n) == ShiftLeft(2 * x - q * WORD_SIZE, n - 1)
  {
    Reduced(2 * x, q);
  }

  /** Shifting left is multiplication where no bit gets lost. */
  lemma {:induction false} ShiftLeftSmall(x: Word, n: nat)
    requires x * Pow2(n) < WORD_SIZE
    ensures ShiftLeft(x, n) == x * Pow2(n)
    decreases n
  {
    if n > 0 {
      DoubleInstead(x, Pow2(n - 1));
      ShiftOnce(x, n, 0);
      ShiftLeftSmall(2 * x, n - 1);
    }
  }

  lemma DoubleInstead(x: nat, p: nat)
    requires p > 0 && x * (2 * p) < WORD_SIZE
    ensures x * (2 * p) == 2 * x * p && 2 * x < WORD_SIZE
  {
    assert 2 * x * (p - 1) >= 0;
  }

  lemma {:induction false} ShiftLeftNegative(x: int, n: nat)
    requires x < 0 && -WORD_SIZE <= x * Pow2(n)
    ensures -WORD_SIZE <= x && ShiftLeft(x + WORD_SIZE, n) == x * Pow2(n) + WORD_SIZE
    decreases n
  {
    if n > 0 {
      DoubleNegative(x, Pow2(n - 1));
      ShiftLeftNegative(2 * x, n - 1);
      ShiftOnce(x + WORD_SIZE, n, 1);
    }
  }

  lemma DoubleNegative(x: int, p: nat)
    requires p > 0 && x < 0 && -WORD_SIZE <= x * (2 * p)
    ensures x * (2 * p) == 2 * x * p && -WORD_SIZE <= 2 * x
  {
    assert (-2 * x) * (p - 1) >= 0;
  }

  /** The number of blocks, and the signed shift back to bytes. */
  lemma PaddedLengthOfBlocks(blocks: int)
    requires -0x200_0000 < blocks <= 0x200_0000
    ensures JsShiftLeftValue(blocks, 6) == if blocks == 0x200_0000 then -HALF else 64 * blocks
  {
    hide ShiftAmount;
    assert Pow2(6) == 64;
    if blocks >= 0 {
      Reduced(blocks, 0);
      ShiftLeftSmall(blocks, 6);
      Reduced(64 * blocks, 0);
    } else {
      Reduced(blocks, -1);
      ShiftLeftNegative(blocks, 6);
      Reduced(64 * blocks + WORD_SIZE, 0);
    }
  }

  /** Below the limit the padded length is the least multiple of 64 with room for nine more bytes. */
  lemma PaddedLengthIsLeast(length: nat)
    requires length < LIMIT
    ensures PaddedLength(length) == length + ZeroBytes(length) + 9
  {
    Reduced(length + 8, 0);
    HalvedSixTimes(length + 8);
    PaddedLengthOfBlocks((length + 8) / 64 + 1);
    RoundedUp(length, (length + 8) / 64);
  }

  lemma RoundedUp(length: nat, q: int)
    requires q == (length + 8) / 64
    ensures 64 * (q + 1) == length + ZeroBytes(length) + 9
  {
    assert length + 8 == 64 * q + (length + 8) % 64;
    assert 55 - length == 64 * (-q) + (63 - (length + 8) % 64);
  }

  /** From the limit on there is not even room for the message: the typed array cannot be made, or
      cannot take the data. */
  lemma PaddedLengthFails(length: nat)
    requires length >= LIMIT
    ensures PaddedLength(length) < 0 || PaddedLength(length) < length
  {
    var u := ToInt32(length + 8);
    HalvedSixTimes(u);
    PaddedLengthOfBlocks(u / 64 + 1);
    if length + 8 < HALF { Reduced(length + 8, 0); }
    if HALF <= length + 8 < WORD_SIZE { Reduced(length + 8, 0); }
  }

  /** What the typed array holds: the upper half of the length field stays zero. */
  function JsPadded(data: seq<Byte>): (padded: seq<Byte>)
    ensures |padded| == |data| + ZeroBytes(|data|) + 9
  {
    data + [0x80] + Zeros(ZeroBytes(|data|) + 4) + BigEndian32(ToUint32(8 * |data|))
  }

  lemma JsPaddedAt(data: seq<Byte>, i: nat)
    requires i < |JsPadded(data)|
    ensures JsPadded(data)[i] ==
      if i < |data| then data[i] else if i == |data| then 0x80
      else if i < |JsPadded(data)| - 4 then 0 else BigEndian32(ToUint32(8 * |data|))[i + 4 - |JsPadded(data)|]
  {
  }

  lemma BigEndianIsZero(x: Word)
    ensures BigEndian32(x) == Zeros(4) <==> x == 0
  {
    assert Zeros(4) == [0, 0, 0, 0];
  }

  /** The padding is the standard's exactly for messages below 2^29 bytes. */
  lemma PaddingAgreesIff(data: seq<Byte>)
    requires |data| < LIMIT
    ensures JsPadded(data) == Pad(data) <==> |data| < SMALL
  {
    var k := ZeroBytes(|data|);
    var front, high, low := data + [0x80] + Zeros(k), BigEndian32(8 * |data| / WORD_SIZE), BigEndian32(8 * |data| % WORD_SIZE);
    assert Zeros(k + 4) == Zeros(k) + Zeros(4);
    assert JsPadded(data) == front + Zeros(4) + low;
    assert Pad(data) == front + high + low;
    BigEndianIsZero(8 * |data| / WORD_SIZE);
    MiddleDecides(front, Zeros(4), high, low);
  }

  lemma MiddleDecides(front: seq<Byte>, a: seq<Byte>, b: seq<Byte>, back: seq<Byte>)
    requires |a| == |b|
    ensures front + a + back == front + b + back <==> a == b
  {
    assert (front + a + back)[|front|..|front| + |a|] == a;
    assert (front + b + back)[|front|..|front| + |b|] == b;
  }

  // ----- hexadecimal output

  function Digit(x: nat): char
    requires x < 16
  {
    "0123456789abcdef"[x]
  }

  /** Number.prototype.toString(16) */
  function ToString16(x: nat): (s: string)
    ensures |s| > 0
    decreases x
  {
    if x < 16 then [Digit(x)] else ToString16(x / 16) + [Digit(x % 16)]
  }

  /** padStart(n, "0") */
  function PadStart(s: string, n: nat): string {
    if |s| >= n then s else seq(n - |s|, _ => '0') + s
  }

  /** The n low hexadecimal digits. */
  function HexDigits(x: nat, n: nat): (s: string)
    ensures |s| == n
    decreases n
  {
    if n == 0 then "" else HexDigits(x / 16, n - 1) + [Digit(x % 16)]
  }

  lemma {:induction false} HexOfZero(n: nat)
    ensures HexDigits(0, n) == seq(n, _ => '0')
    decreases n
  {
    if n > 0 { HexOfZero(n - 1); }
  }

  function Pow16(n: nat): (p: nat)
    ensures p > 0
  {
    if n == 0 then 1 else 16 * Pow16(n - 1)
  }

  lemma PadOneMore(s: string, c: char, n: nat)
    requires n >= 1
    ensures PadStart(s + [c], n) == PadStart(s, n - 1) + [c]
  {
  }

  lemma {:induction false} PaddedHex(x: nat, n: nat)
    requires n >= 1 && x < Pow16(n)
    ensures PadStart(ToString16(x), n) == HexDigits(x, n)
    decreases n
  {
    assert Pow16(n) == 16 * Pow16(n - 1);
    if x < 16 {
      HexOfZero(n - 1);
      assert HexDigits(x / 16, n - 1) == HexDigits(0, n - 1);
    } else {
      assert x / 16 < Pow16(n - 1);
      assert n >= 2 by { assert Pow16(1) == 16 * Pow16(0); }
      PaddedHex(x / 16, n - 1);
      PadOneMore(ToString16(x / 16), Digit(x % 16), n);
    }
  }

  function HexWord(x: Word): string {
    HexDigits(x, 8)
  }

  function Hex(s: State): string {
    HexWord(s.a) + HexWord(s.b) + HexWord(s.c) + HexWord(s.d) + HexWord(s.e) + HexWord(s.f) + HexWord(s.g) + HexWord(s.h)
  }

  method WordToHex(x: Word) returns (s: string)
    ensures s == HexWord(x)
  {
    assert Pow16(4) == 0x1_0000 && Pow16(8) == WORD_SIZE;
    PaddedHex(x, 8);
    s := PadStart(ToString16(x), 8);
  }

  method StateToHex(hash: State) returns (s: string)
    ensures s == Hex(hash)
  {
    var a := WordToHex(hash.a);
    var b := WordToHex(hash.b);
    var c := WordToHex(hash.c);
    var d := WordToHex(hash.d);
    var e := WordToHex(hash.e);
    var f := WordToHex(hash.f);
    var g := WordToHex(hash.g);
    var h := WordToHex(hash.h);
    s := a + b + c + d + e + f + g + h;
  }

  // ----- the whole function

  /** Lays the message out in a fresh typed array. */
  method PadMessage(data: seq<Byte>) returns (padded: array<Byte>)
    requires |data| < LIMIT
    ensures fresh(padded) && padded[..] == JsPadded(data)
  {
    hide JsPadded, PaddedLength, ToUint32, BigEndian32;
    PaddedLengthIsLeast(|data|);
    var n := PaddedLength(|data|);
    padded := new Byte[n](_ => 0);
    for i := 0 to |data|
      invariant forall j :: 0 <= j < n ==> padded[j] == if j < i then data[j] else 0
    {
      padded[i] := data[i];
    }
    padded[|data|] := 0x80;
    var length := BigEndian32(ToUint32(8 * |data|));
    padded[n - 4], padded[n - 3], padded[n - 2], padded[n - 1] := length[0], length[1], length[2], length[3];
    forall i | 0 <= i < n ensures padded[i] == JsPadded(data)[i] {
      JsPaddedAt(data, i);
    }
  }

  method HashPadded(padded: array<Byte>) returns (hash: State)
    ensures hash == HashBlocks(padded[..], padded.Length / 64)
  {
    hide Compress, HashBlocks;
    HashFacts(padded[..]);
    hash := INITIAL;
    var w := new Word[64](_ => 0);
    ghost var message := padded[..];
    for i := 0 to padded.Length / 64
      invariant hash == HashBlocks(message, i) && padded[..] == message
    {
      var block := padded[64 * i..64 * i + 64];
      assert block == Block(message, i);
      HashOneMore(message, i);
      hash := CompressBlock(hash, w, block);
    }
  }

  lemma HashFacts(padded: seq<Byte>)
    ensures HashBlocks(padded, 0) == INITIAL
  {
  }

  lemma HashOneMore(padded: seq<Byte>, n: nat)
    requires 64 * (n + 1) <= |padded|
    ensures HashBlocks(padded, n + 1) == Compress(HashBlocks(padded, n), Block(padded, n))
  {
  }

  /** The digest where the typed array can be made; the standard's for messages below 2^29 bytes. */
  method Sha256Bytes(data: seq<Byte>) returns (digest: Option<string>)
    ensures digest.Some? <==> |data| < LIMIT
    ensures digest.Some? ==> |JsPadded(data)| % 64 == 0
    ensures digest.Some? ==> digest.value == Hex(HashBlocks(JsPadded(data), |JsPadded(data)| / 64))
    ensures |data| < SMALL ==> digest == Some(Hex(Fips180.Sha256(data)))
  {
    hide PaddedLength, HashBlocks, Hex, Fips180.Sha256, ZeroBytes;
    var paddedLength := PaddedLength(|data|);
    if paddedLength < 0 || |data| > paddedLength {
      if |data| < LIMIT { PaddedLengthIsLeast(|data|); }
      return None;
    }
    if |data| >= LIMIT { PaddedLengthFails(|data|); }
    var padded := PadMessage(data);
    var hash := HashPadded(padded);
    var s := StateToHex(hash);
    FillsBlocks(|data|, ZeroBytes(|data|));
    SmallDigest(data);
    digest := Some(s);
  }

  lemma SmallDigest(data: seq<Byte>)
    requires |data| < LIMIT
    ensures |data| < SMALL ==> HashBlocks(JsPadded(data), |JsPadded(data)| / 64) == Fips180.Sha256(data)
  {
    PaddingAgreesIff(data);
  }
}
