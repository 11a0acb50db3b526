/** Traditional PKWARE encryption as the archive reader undoes it, against section 6.1 of
    APPNOTE.TXT. daemon/internal/files/extract.go:385-449 */
module ZipCrypto {
  import opened StreamCipher

  type Byte = bv8

  datatype Keys = Keys(k0: bv32, k1: bv32, k2: bv32)

  const INITIAL_KEYS := Keys(0x12345678, 0x23456789, 0x34567890)
  const HEADER_SIZE := 12

  function LowByte(x: bv32): Byte {
    (x & 0xFF) as bv8
  }

  function Xor(a: bv32, b: bv32): bv32 {
    a ^ b
  }

  function Half(c: bv32): bv32 {
    c >> 1
  }

  function Iterate<T>(f: T -> T, x: T, n: nat): T
    decreases n
  {
    if n == 0 then x else Iterate(f, f(x), n - 1)
  }

  // ----- CRC-32

  /** One bit of the reflected CRC-32 with the polynomial 0xEDB88320. */
  function CrcBit(c: bv32): bv32 {
    if c & 1 == 1 then (c >> 1) ^ 0xEDB88320 else c >> 1
  }

  function CrcBits(c: bv32, n: nat): bv32 {
    Iterate(CrcBit, c, n)
  }

  /** The standard's crc32(old_crc, char), bit by bit. */
  function Crc32(checksum: bv32, value: Byte): bv32 {
    CrcBits(checksum ^ (value as bv32), 8)
  }

  /** crc32.IEEETable, which Go's library fills by this rule. */
  function IEEETable(index: Byte): bv32 {
    CrcBits(index as bv32, 8)
  }

  function ZipCryptoCRC32(checksum: bv32, value: Byte): bv32 {
    Xor(IEEETable(LowByte(checksum) ^ value), checksum >> 8)
  }

  lemma CrcBitOddOdd(a: bv32, b: bv32)
    requires a & 1 == 1 && b & 1 == 1
    ensures CrcBit(a ^ b) == CrcBit(a) ^ CrcBit(b)
  {
  }

  lemma CrcBitOddEven(a: bv32, b: bv32)
    requires a & 1 == 1 && b & 1 != 1
    ensures CrcBit(a ^ b) == CrcBit(a) ^ CrcBit(b)
  {
  }

  lemma CrcBitEvenOdd(a: bv32, b: bv32)
    requires a & 1 != 1 && b & 1 == 1
    ensures CrcBit(a ^ b) == CrcBit(a) ^ CrcBit(b)
  {
  }

  lemma CrcBitEvenEven(a: bv32, b: bv32)
    requires a & 1 != 1 && b & 1 != 1
    ensures CrcBit(a ^ b) == CrcBit(a) ^ CrcBit(b)
  {
  }

  lemma CrcBitIsLinear(a: bv32, b: bv32)
    ensures CrcBit(a ^ b) == CrcBit(a) ^ CrcBit(b)
  {
    if a & 1 == 1 {
      if b & 1 == 1 { CrcBitOddOdd(a, b); } else { CrcBitOddEven(a, b); }
    } else {
      if b & 1 == 1 { CrcBitEvenOdd(a, b); } else { CrcBitEvenEven(a, b); }
    }
  }

  lemma {:induction false} IterateIsLinear<T(!new)>(f: T -> T, plus: (T, T) -> T, a: T, b: T, n: nat)
    requires forall x, y :: f(plus(x, y)) == plus(f(x), f(y))
    ensures Iterate(f, plus(a, b), n) == plus(Iterate(f, a, n), Iterate(f, b, n))
    decreases n
  {
    if n > 0 { IterateIsLinear(f, plus, f(a), f(b), n - 1); }
  }

  lemma CrcBitsAreLinear(a: bv32, b: bv32, n: nat)
    ensures CrcBits(Xor(a, b), n) == Xor(CrcBits(a, n), CrcBits(b, n))
  {
    forall x, y ensures CrcBit(Xor(x, y)) == Xor(CrcBit(x), CrcBit(y)) {
      CrcBitIsLinear(x, y);
    }
    IterateIsLinear(CrcBit, Xor, a, b, n);
  }

  /** The n low bits of the mask are ones. */
  ghost predicate LowOnes(mask: bv32, n: nat)
    decreases n
  {
    n == 0 || (mask & 1 == 1 && LowOnes(Half(mask), n - 1))
  }

  lemma EvenBit(c: bv32, mask: bv32)
    requires c & mask == 0 && mask & 1 == 1
    ensures CrcBit(c) == Half(c) && Half(c) & Half(mask) == 0
  {
  }

  lemma {:induction false} ZerosShiftOut(c: bv32, mask: bv32, n: nat)
    requires c & mask == 0 && LowOnes(mask, n)
    ensures CrcBits(c, n) == Iterate(Half, c, n)
    decreases n
  {
    if n > 0 {
      EvenBit(c, mask);
      ZerosShiftOut(Half(c), Half(mask), n - 1);
    }
  }

  lemma EightSteps<T>(f: T -> T, x0: T, x1: T, x2: T, x3: T, x4: T, x5: T, x6: T, x7: T, x8: T, n: nat)
    requires f(x0) == x1 && f(x1) == x2 && f(x2) == x3 && f(x3) == x4
    requires f(x4) == x5 && f(x5) == x6 && f(x6) == x7 && f(x7) == x8 && n == 8
    ensures Iterate(f, x0, n) == x8
  {
    assert Iterate(f, x0, n) == Iterate(f, x4, n - 4);
  }

  lemma EightOnes(n: nat)
    requires n == 8
    ensures LowOnes(0xFF, n)
  {
    assert Half(0xFF) == 0x7F && Half(0x7F) == 0x3F && Half(0x3F) == 0x1F && Half(0x1F) == 0xF;
    assert Half(0xF) == 7 && Half(7) == 3 && Half(3) == 1;
    assert LowOnes(1, n - 7);
    assert LowOnes(3, n - 6);
    assert LowOnes(7, n - 5);
    assert LowOnes(0xF, n - 4);
    assert LowOnes(0x1F, n - 3);
    assert LowOnes(0x3F, n - 2);
    assert LowOnes(0x7F, n - 1);
  }

  lemma EightHalves(c: bv32, n: nat)
    requires n == 8
    ensures Iterate(Half, c, n) == c >> 8
  {
    EightSteps(Half, c, c >> 1, c >> 2, c >> 3, c >> 4, c >> 5, c >> 6, c >> 7, c >> 8, n);
  }

  /** Bits above the low byte only move down. */
  lemma HighBitsShift(c: bv32, n: nat)
    requires c & 0xFF == 0 && n == 8
    ensures CrcBits(c, n) == c >> 8
  {
    EightOnes(n);
    ZerosShiftOut(c, 0xFF, n);
    EightHalves(c, n);
  }

  lemma SplitLowByte(checksum: bv32, value: Byte)
    ensures (checksum & 0xFFFFFF00) & 0xFF == 0
    ensures (checksum & 0xFFFFFF00) >> 8 == checksum >> 8
    ensures checksum ^ (value as bv32) == Xor(checksum & 0xFFFFFF00, (LowByte(checksum) ^ value) as bv32)
  {
  }

  lemma XorCommutes(a: bv32, b: bv32)
    ensures Xor(a, b) == Xor(b, a)
  {
  }

  lemma CombineHalves(whole: bv32, high: bv32, low: bv32, shifted: bv32, n: nat)
    requires whole == Xor(high, low) && CrcBits(high, n) == shifted
    ensures CrcBits(whole, n) == Xor(CrcBits(low, n), shifted)
  {
    CrcBitsAreLinear(high, low, n);
    XorCommutes(CrcBits(low, n), shifted);
  }

  lemma ByteStep(checksum: bv32, value: Byte, n: nat)
    requires n == 8
    ensures CrcBits(checksum ^ (value as bv32), n) == Xor(CrcBits((LowByte(checksum) ^ value) as bv32, n), checksum >> 8)
  {
    SplitLowByte(checksum, value);
    HighBitsShift(checksum & 0xFFFFFF00, n);
    CombineHalves(checksum ^ (value as bv32), checksum & 0xFFFFFF00, (LowByte(checksum) ^ value) as bv32, checksum >> 8, n);
  }

  /** The table-driven step is the standard's checksum. */
  lemma TableIsCrc(checksum: bv32, value: Byte)
    ensures ZipCryptoCRC32(checksum, value) == Crc32(checksum, value)
  {
    ByteStep(checksum, value, 8);
  }

  // ----- the standard's cipher

  /** The new second key from the old one and the low byte of the new first. */
  function SecondKey(k1: bv32, low: bv32): bv32 {
    (k1 + low) * 134775813 + 1
  }

  function TopByte(x: bv32): Byte {
    LowByte(x >> 24)
  }

  function UpdateKeys(k: Keys, value: Byte): Keys {
    var k0 := Crc32(k.k0, value);
    var k1 := SecondKey(k.k1, LowByte(k0) as bv32);
    Keys(k0, k1, Crc32(k.k2, TopByte(k1)))
  }

  /** The byte made of the 16-bit variable temp. */
  function StreamByte(temp: bv32): Byte {
    LowByte((temp * (temp ^ 1)) >> 8)
  }

  /** The standard's decrypt_byte, whose temp is an unsigned short. */
  function DecryptByte(k: Keys): Byte {
    StreamByte((k.k2 | 2) & 0xFFFF)
  }

  /** Keeping all 32 bits of temp makes no difference to the byte. */
  lemma HighHalfIsIgnored(temp: bv32)
    ensures StreamByte(temp) == StreamByte(temp & 0xFFFF)
  {
  }

  function XorByte(a: Byte, b: Byte): Byte {
    a ^ b
  }

  /** The standard's decryption of one byte. */
  const STANDARD := Cipher(DecryptByte, UpdateKeys, XorByte)

  lemma XorTwice(a: Byte, b: Byte)
    ensures XorByte(XorByte(a, b), b) == a
  {
  }

  lemma StandardIsInvolutive()
    ensures Involutive(STANDARD.mix)
  {
    forall a, b ensures XorByte(XorByte(a, b), b) == a {
      XorTwice(a, b);
    }
  }

  // ----- the reader's version of it

  /** zipCryptoReader.decryptByte. */
  function ReaderDecryptByte(k: Keys): Byte {
    StreamByte(k.k2 | 2)
  }

  /** zipCryptoReader.updateKeys. */
  function ReaderUpdateKeys(k: Keys, value: Byte): Keys {
    var k0 := ZipCryptoCRC32(k.k0, value);
    var k1 := SecondKey(k.k1, LowByte(k0) as bv32);
    Keys(k0, k1, ZipCryptoCRC32(k.k2, TopByte(k1)))
  }

  const READER := Cipher(ReaderDecryptByte, ReaderUpdateKeys, XorByte)

  lemma UpdateIsStandard(k: Keys, value: Byte)
    ensures ReaderUpdateKeys(k, value) == UpdateKeys(k, value)
  {
    TableIsCrc(k.k0, value);
    TableIsCrc(k.k2, TopByte(SecondKey(k.k1, LowByte(Crc32(k.k0, value)) as bv32)));
  }

  lemma StreamIsStandard(k: Keys)
    ensures READER.stream(k) == STANDARD.stream(k)
  {
    HighHalfIsIgnored(k.k2 | 2);
  }

  lemma ReaderUpdateIsStandard(k: Keys, value: Byte)
    ensures READER.update(k, value) == STANDARD.update(k, value)
  {
    UpdateIsStandard(k, value);
  }

  /** The reader's stream byte and key update are the standard's for every key and byte. */
  lemma ReaderIsStandard()
    ensures SameCipher(READER, STANDARD)
  {
    forall k: Keys ensures READER.stream(k) == STANDARD.stream(k) {
      StreamIsStandard(k);
    }
    forall k: Keys, value: Byte ensures READER.update(k, value) == STANDARD.update(k, value) {
      ReaderUpdateIsStandard(k, value);
    }
  }
}
