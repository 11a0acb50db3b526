/** SHA-256 as FIPS 180-4 specifies it: sections 4.1.2, 4.2.2, 5.1.1, 5.3.3 and 6.2.2. */
module Fips180 {
  import opened Words

  // ----- section 4.1.2

  function ROTR(n: nat, x: Word): Word
    requires n < 32
  {
    Or(ShiftRight(x, n), ShiftLeft(x, 32 - n))
  }

  function Ch(x: Word, y: Word, z: Word): Word { Xor(And(x, y), And(Not(x), z)) }
  function Maj(x: Word, y: Word, z: Word): Word { Xor(Xor(And(x, y), And(x, z)), And(y, z)) }
  function BigSigma0(x: Word): Word { Xor(Xor(ROTR(2, x), ROTR(13, x)), ROTR(22, x)) }
  function BigSigma1(x: Word): Word { Xor(Xor(ROTR(6, x), ROTR(11, x)), ROTR(25, x)) }
  function SmallSigma0(x: Word): Word { Xor(Xor(ROTR(7, x), ROTR(18, x)), ShiftRight(x, 3)) }
  function SmallSigma1(x: Word): Word { Xor(Xor(ROTR(17, x), ROTR(19, x)), ShiftRight(x, 10)) }

  // ----- section 5.1.1

  function Zeros(n: nat): seq<Byte> {
    seq(n, _ => 0)
  }

  function BigEndian32(x: Word): (b: seq<Byte>)
    ensures |b| == 4
  {
    [x / 0x100_0000, x / 0x1_0000 % 256, x / 0x100 % 256, x % 256]
  }

  /** The least number of zero bytes that makes room for the length at the end of a block. */
  function ZeroBytes(length: nat): (k: nat)
    ensures (length + 1 + k) % 64 == 56
  {
    (55 - length) % 64
  }

  lemma ZeroBytesAreLeast(length: nat, j: nat)
    requires (length + 1 + j) % 64 == 56
    ensures ZeroBytes(length) <= j
  {
  }

  /** 2^64 bits. */
  const MAX_LENGTH := 0x2000_0000_0000_0000

  function LengthField(length: nat): (b: seq<Byte>)
    requires length < MAX_LENGTH
    ensures |b| == 8
  {
    BigEndian32(8 * length / WORD_SIZE) + BigEndian32(8 * length % WORD_SIZE)
  }

  /** The message, a one bit, zeros, and its length in bits as a 64-bit number. */
  function Pad(message: seq<Byte>): (padded: seq<Byte>)
    requires |message| < MAX_LENGTH
    ensures |padded| == |message| + ZeroBytes(|message|) + 9
  {
    message + [0x80] + Zeros(ZeroBytes(|message|)) + LengthField(|message|)
  }

  lemma PadFillsBlocks(message: seq<Byte>)
    requires |message| < MAX_LENGTH
    ensures |Pad(message)| % 64 == 0
  {
    FillsBlocks(|message|, ZeroBytes(|message|));
  }

  lemma FillsBlocks(length: nat, k: nat)
    requires (length + 1 + k) % 64 == 56
    ensures (length + k + 9) % 64 == 0
  {
  }

  // ----- section 6.2.2

  datatype State = State(a: Word, b: Word, c: Word, d: Word, e: Word, f: Word, g: Word, h: Word)

  function WordAt(bytes: seq<Byte>, i: nat): Word
    requires 4 * i + 4 <= |bytes|
  {
    var b0: int, b1: int, b2: int, b3: int := bytes[4 * i], bytes[4 * i + 1], bytes[4 * i + 2], bytes[4 * i + 3];
    b0 * 0x100_0000 + b1 * 0x1_0000 + b2 * 0x100 + b3
  }

  /** The message schedule of a block. */
  function Schedule(block: seq<Byte>, t: nat): Word
    requires |block| == 64
    decreases t
  {
    if t < 16 then WordAt(block, t) else
      Plus(Plus(Plus(SmallSigma1(Schedule(block, t - 2)), Schedule(block, t - 7)), SmallSigma0(Schedule(block, t - 15))),
           Schedule(block, t - 16))
  }

  function Round(s: State, k: Word, w: Word): State {
    var t1 := Plus(Plus(Plus(Plus(s.h, BigSigma1(s.e)), Ch(s.e, s.f, s.g)), k), w);
    var t2 := Plus(BigSigma0(s.a), Maj(s.a, s.b, s.c));
    State(Plus(t1, t2), s.a, s.b, s.c, Plus(s.d, t1), s.e, s.f, s.g)
  }

  /** The working variables after t rounds on a block. */
  function Rounds(s: State, block: seq<Byte>, t: nat): State
    requires |block| == 64 && t <= 64
    decreases t
  {
    if t == 0 then s else Round(Rounds(s, block, t - 1), K[t - 1], Schedule(block, t - 1))
  }

  function AddStates(x: State, y: State): State {
    State(Plus(y.a, x.a), Plus(y.b, x.b), Plus(y.c, x.c), Plus(y.d, x.d),
          Plus(y.e, x.e), Plus(y.f, x.f), Plus(y.g, x.g), Plus(y.h, x.h))
  }

  function Compress(hash: State, block: seq<Byte>): State
    requires |block| == 64
  {
    AddStates(Rounds(hash, block, 64), hash)
  }

  function Block(padded: seq<Byte>, i: nat): (block: seq<Byte>)
    requires 64 * i + 64 <= |padded|
    ensures |block| == 64
  {
    padded[64 * i..64 * i + 64]
  }

  /** The hash value after the first n blocks. */
  function HashBlocks(padded: seq<Byte>, n: nat): State
    requires 64 * n <= |padded|
    decreases n
  {
    if n == 0 then INITIAL else Compress(HashBlocks(padded, n - 1), Block(padded, n - 1))
  }

  function Sha256(message: seq<Byte>): State
    requires |message| < MAX_LENGTH
  {
    var padded := Pad(message);
    PadFillsBlocks(message);
    HashBlocks(padded, |padded| / 64)
  }

  // ----- sections 4.2.2 and 5.3.3

  const K0: seq<Word> := [0x428a_2f98, 0x7137_4491, 0xb5c0_fbcf, 0xe9b5_dba5, 0x3956_c25b, 0x59f1_11f1, 0x923f_82a4, 0xab1c_5ed5]
  const K1: seq<Word> := [0xd807_aa98, 0x1283_5b01, 0x2431_85be, 0x550c_7dc3, 0x72be_5d74, 0x80de_b1fe, 0x9bdc_06a7, 0xc19b_f174]
  const K2: seq<Word> := [0xe49b_69c1, 0xefbe_4786, 0x0fc1_9dc6, 0x240c_a1cc, 0x2de9_2c6f, 0x4a74_84aa, 0x5cb0_a9dc, 0x76f9_88da]
  const K3: seq<Word> := [0x983e_5152, 0xa831_c66d, 0xb003_27c8, 0xbf59_7fc7, 0xc6e0_0bf3, 0xd5a7_9147, 0x06ca_6351, 0x1429_2967]
  const K4: seq<Word> := [0x27b7_0a85, 0x2e1b_2138, 0x4d2c_6dfc, 0x5338_0d13, 0x650a_7354, 0x766a_0abb, 0x81c2_c92e, 0x9272_2c85]
  const K5: seq<Word> := [0xa2bf_e8a1, 0xa81a_664b, 0xc24b_8b70, 0xc76c_51a3, 0xd192_e819, 0xd699_0624, 0xf40e_3585, 0x106a_a070]
  const K6: seq<Word> := [0x19a4_c116, 0x1e37_6c08, 0x2748_774c, 0x34b0_bcb5, 0x391c_0cb3, 0x4ed8_aa4a, 0x5b9c_ca4f, 0x682e_6ff3]
  const K7: seq<Word> := [0x748f_82ee, 0x78a5_636f, 0x84c8_7814, 0x8cc7_0208, 0x90be_fffa, 0xa450_6ceb, 0xbef9_a3f7, 0xc671_78f2]

  const K: seq<Word> := K0 + K1 + K2 + K3 + K4 + K5 + K6 + K7

  const INITIAL := State(0x6a09_e667, 0xbb67_ae85, 0x3c6e_f372, 0xa54f_f53a, 0x510e_527f, 0x9b05_688c, 0x1f83_d9ab, 0x5be0_cd19)

  /** The first sixty-four primes. */
  const P0: seq<nat> := [2, 3, 5, 7, 11, 13, 17, 19]
  const P1: seq<nat> := [23, 29, 31, 37, 41, 43, 47, 53]
  const P2: seq<nat> := [59, 61, 67, 71, 73, 79, 83, 89]
  const P3: seq<nat> := [97, 101, 103, 107, 109, 113, 127, 131]
  const P4: seq<nat> := [137, 139, 149, 151, 157, 163, 167, 173]
  const P5: seq<nat> := [179, 181, 191, 193, 197, 199, 211, 223]
  const P6: seq<nat> := [227, 229, 233, 239, 241, 251, 257, 263]
  const P7: seq<nat> := [269, 271, 277, 281, 283, 293, 307, 311]

  const PRIMES: seq<nat> := P0 + P1 + P2 + P3 + P4 + P5 + P6 + P7

  function CubeRoot(p: nat): nat {
    if p < 8 then 1 else if p < 27 then 2 else if p < 64 then 3 else if p < 125 then 4 else if p < 216 then 5 else 6
  }

  /** k is the first 32 bits of the fractional part of the cube root of p. */
  predicate CubeRootBits(p: nat, k: Word) {
    var r := CubeRoot(p) * WORD_SIZE + k;
    r * r * r <= p * WORD_SIZE * WORD_SIZE * WORD_SIZE < (r + 1) * (r + 1) * (r + 1)
  }

  function SquareRoot(p: nat): nat {
    if p < 4 then 1 else if p < 9 then 2 else if p < 16 then 3 else 4
  }

  /** h is the first 32 bits of the fractional part of the square root of p. */
  predicate SquareRootBits(p: nat, h: Word) {
    var r := SquareRoot(p) * WORD_SIZE + h;
    r * r <= p * WORD_SIZE * WORD_SIZE < (r + 1) * (r + 1)
  }

  /** Entry by entry, k holds the cube roots of p. */
  ghost predicate RowOfRoots(p: seq<nat>, k: seq<Word>) {
    |p| == 8 && |k| == 8 && forall i :: 0 <= i < 8 ==> CubeRootBits(p[i], k[i])
  }

  ghost predicate Roots(p: seq<nat>, k: seq<Word>) {
    |p| == |k| && forall i :: 0 <= i < |p| ==> CubeRootBits(p[i], k[i])
  }

  lemma OneRow(p: seq<nat>, k: seq<Word>)
    requires RowOfRoots(p, k)
    ensures |p| == 8 && Roots(p, k)
  {
    hide CubeRootBits;
  }

  lemma OneMoreRow(p: seq<nat>, k: seq<Word>, q: seq<nat>, l: seq<Word>)
    requires Roots(p, k) && RowOfRoots(q, l)
    ensures Roots(p + q, k + l) && |p + q| == |p| + 8
  {
    hide CubeRootBits;
  }

  lemma Row0()
    ensures RowOfRoots(P0, K0)
  {
    assert CubeRootBits(2, 0x428a_2f98) && CubeRootBits(3, 0x7137_4491) && CubeRootBits(5, 0xb5c0_fbcf) && CubeRootBits(7, 0xe9b5_dba5);
    assert CubeRootBits(11, 0x3956_c25b) && CubeRootBits(13, 0x59f1_11f1) && CubeRootBits(17, 0x923f_82a4) && CubeRootBits(19, 0xab1c_5ed5);
  }

  lemma Row1()
    ensures RowOfRoots(P1, K1)
  {
    assert CubeRootBits(23, 0xd807_aa98) && CubeRootBits(29, 0x1283_5b01) && CubeRootBits(31, 0x2431_85be) && CubeRootBits(37, 0x550c_7dc3);
    assert CubeRootBits(41, 0x72be_5d74) && CubeRootBits(43, 0x80de_b1fe) && CubeRootBits(47, 0x9bdc_06a7) && CubeRootBits(53, 0xc19b_f174);
  }

  lemma Row2()
    ensures RowOfRoots(P2, K2)
  {
    assert CubeRootBits(59, 0xe49b_69c1) && CubeRootBits(61, 0xefbe_4786) && CubeRootBits(67, 0x0fc1_9dc6) && CubeRootBits(71, 0x240c_a1cc);
    assert CubeRootBits(73, 0x2de9_2c6f) && CubeRootBits(79, 0x4a74_84aa) && CubeRootBits(83, 0x5cb0_a9dc) && CubeRootBits(89, 0x76f9_88da);
  }

  lemma Row3()
    ensures RowOfRoots(P3, K3)
  {
    assert CubeRootBits(97, 0x983e_5152) && CubeRootBits(101, 0xa831_c66d) && CubeRootBits(103, 0xb003_27c8) && CubeRootBits(107, 0xbf59_7fc7);
    assert CubeRootBits(109, 0xc6e0_0bf3) && CubeRootBits(113, 0xd5a7_9147) && CubeRootBits(127, 0x06ca_6351) && CubeRootBits(131, 0x1429_2967);
  }

  lemma Row4()
    ensures RowOfRoots(P4, K4)
  {
    assert CubeRootBits(137, 0x27b7_0a85) && CubeRootBits(139, 0x2e1b_2138) && CubeRootBits(149, 0x4d2c_6dfc) && CubeRootBits(151, 0x5338_0d13);
    assert CubeRootBits(157, 0x650a_7354) && CubeRootBits(163, 0x766a_0abb) && CubeRootBits(167, 0x81c2_c92e) && CubeRootBits(173, 0x9272_2c85);
  }

  lemma Row5()
    ensures RowOfRoots(P5, K5)
  {
    assert CubeRootBits(179, 0xa2bf_e8a1) && CubeRootBits(181, 0xa81a_664b) && CubeRootBits(191, 0xc24b_8b70) && CubeRootBits(193, 0xc76c_51a3);
    assert CubeRootBits(197, 0xd192_e819) && CubeRootBits(199, 0xd699_0624) && CubeRootBits(211, 0xf40e_3585) && CubeRootBits(223, 0x106a_a070);
  }

  lemma Row6()
    ensures RowOfRoots(P6, K6)
  {
    assert CubeRootBits(227, 0x19a4_c116) && CubeRootBits(229, 0x1e37_6c08) && CubeRootBits(233, 0x2748_774c) && CubeRootBits(239, 0x34b0_bcb5);
    assert CubeRootBits(241, 0x391c_0cb3) && CubeRootBits(251, 0x4ed8_aa4a) && CubeRootBits(257, 0x5b9c_ca4f) && CubeRootBits(263, 0x682e_6ff3);
  }

  lemma Row7()
    ensures RowOfRoots(P7, K7)
  {
    assert CubeRootBits(269, 0x748f_82ee) && CubeRootBits(271, 0x78a5_636f) && CubeRootBits(277, 0x84c8_7814) && CubeRootBits(281, 0x8cc7_0208);
    assert CubeRootBits(283, 0x90be_fffa) && CubeRootBits(293, 0xa450_6ceb) && CubeRootBits(307, 0xbef9_a3f7) && CubeRootBits(311, 0xc671_78f2);
  }

  /** Section 4.2.2: the sixty-four constants are the cube roots of the first primes. */
  lemma KeysAreCubeRoots()
    ensures |K| == |PRIMES| == 64
    ensures forall i :: 0 <= i < 64 ==> CubeRootBits(PRIMES[i], K[i])
  {
    hide CubeRootBits, RowOfRoots;
    Row0(); Row1(); Row2(); Row3(); Row4(); Row5(); Row6(); Row7();
    OneRow(P0, K0);
    OneMoreRow(P0, K0, P1, K1);
    OneMoreRow(P0 + P1, K0 + K1, P2, K2);
    OneMoreRow(P0 + P1 + P2, K0 + K1 + K2, P3, K3);
    OneMoreRow(P0 + P1 + P2 + P3, K0 + K1 + K2 + K3, P4, K4);
    OneMoreRow(P0 + P1 + P2 + P3 + P4, K0 + K1 + K2 + K3 + K4, P5, K5);
    OneMoreRow(P0 + P1 + P2 + P3 + P4 + P5, K0 + K1 + K2 + K3 + K4 + K5, P6, K6);
    OneMoreRow(P0 + P1 + P2 + P3 + P4 + P5 + P6, K0 + K1 + K2 + K3 + K4 + K5 + K6, P7, K7);
  }

  /** Section 5.3.3: the initial hash value is the square roots of the first eight. */
  lemma InitialIsSquareRoots()
    ensures SquareRootBits(2, INITIAL.a) && SquareRootBits(3, INITIAL.b)
    ensures SquareRootBits(5, INITIAL.c) && SquareRootBits(7, INITIAL.d)
    ensures SquareRootBits(11, INITIAL.e) && SquareRootBits(13, INITIAL.f)
    ensures SquareRootBits(17, INITIAL.g) && SquareRootBits(19, INITIAL.h)
  {
  }
}
