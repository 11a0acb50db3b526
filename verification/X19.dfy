/** The encrypted HTTP envelope of the X19 client: CBC mode, section 6.2 of NIST SP 800-38A, over a
    block cipher that is only assumed to invert, and a marker found by scanning backwards.
    panel/internal/netgames/client.go:38-39, 553-601 */
module X19 {
  import opened Options

  type Byte = bv8

  const BLOCK_SIZE := 16

  type Block = b: seq<Byte> | |b| == BLOCK_SIZE witness seq(BLOCK_SIZE, _ => 0)

  datatype BlockCipher = BlockCipher(encrypt: Block -> Block, decrypt: Block -> Block)

  ghost predicate Inverts(c: BlockCipher) {
    forall b: Block :: c.decrypt(c.encrypt(b)) == b
  }

  function Xor(a: Block, b: Block): Block {
    seq(BLOCK_SIZE, i requires 0 <= i < BLOCK_SIZE => a[i] ^ b[i])
  }

  lemma XorByteTwice(a: Byte, b: Byte)
    ensures (a ^ b) ^ b == a
  {
  }

  lemma XorTwice(a: Block, b: Block)
    ensures Xor(Xor(a, b), b) == a
  {
    forall i | 0 <= i < BLOCK_SIZE ensures Xor(Xor(a, b), b)[i] == a[i] {
      XorByteTwice(a[i], b[i]);
    }
  }

  // ----- cipher block chaining

  predicate Blocks(s: seq<Byte>) {
    |s| % BLOCK_SIZE == 0
  }

  function EncryptCBC(c: BlockCipher, iv: Block, plain: seq<Byte>): (text: seq<Byte>)
    requires Blocks(plain)
    ensures |text| == |plain|
    decreases |plain|
  {
    if plain == [] then [] else
      var block := c.encrypt(Xor(plain[..BLOCK_SIZE], iv));
      block + EncryptCBC(c, block, plain[BLOCK_SIZE..])
  }

  function DecryptCBC(c: BlockCipher, iv: Block, text: seq<Byte>): (plain: seq<Byte>)
    requires Blocks(text)
    ensures |plain| == |text|
    decreases |text|
  {
    if text == [] then [] else
      Xor(c.decrypt(text[..BLOCK_SIZE]), iv) + DecryptCBC(c, text[..BLOCK_SIZE], text[BLOCK_SIZE..])
  }

  lemma {:induction false} CBCRoundTrip(c: BlockCipher, iv: Block, plain: seq<Byte>)
    requires Inverts(c) && Blocks(plain)
    ensures DecryptCBC(c, iv, EncryptCBC(c, iv, plain)) == plain
    decreases |plain|
  {
    if plain != [] {
      var first, rest := plain[..BLOCK_SIZE], plain[BLOCK_SIZE..];
      var block := c.encrypt(Xor(first, iv));
      var text := EncryptCBC(c, iv, plain);
      assert text[..BLOCK_SIZE] == block && text[BLOCK_SIZE..] == EncryptCBC(c, block, rest);
      XorTwice(first, iv);
      CBCRoundTrip(c, block, rest);
      assert plain == first + rest;
    }
  }

  // ----- the marker

  /** "szkgpbyimxavqjcn" */
  const HTTP_IV: Block := [0x73, 0x7a, 0x6b, 0x67, 0x70, 0x62, 0x79, 0x69, 0x6d, 0x78, 0x61, 0x76, 0x71, 0x6a, 0x63, 0x6e]

  const HTTP_KEYS: seq<string> := [
    "MK6mipwmOUedplb6", "OtEylfId6dyhrfdn", "VNbhn5mvUaQaeOo9", "bIEoQGQYjKd02U0J",
    "fuaJrPwaH2cfXXLP", "LEkdyiroouKQ4XN1", "jM1h27H4UROu427W", "DhReQada7gZybTDk",
    "ZGXfpSTYUvcdKqdY", "AZwKf7MWZrJpGR5W", "amuvbcHw38TcSyPU", "SI4QotspbjhyFdT0",
    "VP4dhjKnDGlSJtbB", "UXDZx4KhZywQ2tcn", "NIK73ZNvNqzva4kd", "WeiW7qU766Q1YQZI" ]

  function NonZeros(s: seq<Byte>): nat {
    if s == [] then 0 else (if s[|s| - 1] != 0 then 1 else 0) + NonZeros(s[..|s| - 1])
  }

  lemma {:induction false} NonZerosAppend(a: seq<Byte>, b: seq<Byte>)
    ensures NonZeros(a + b) == NonZeros(a) + NonZeros(b)
    decreases |b|
  {
    if b == [] {
      assert a + b == a;
    } else {
      var front := b[..|b| - 1];
      assert (a + b)[..|a + b| - 1] == a + front;
      NonZerosAppend(a, front);
    }
  }

  lemma {:induction false} NonZerosAtMost(s: seq<Byte>)
    ensures NonZeros(s) <= |s|
    ensures NonZeros(s) == |s| <==> forall i :: 0 <= i < |s| ==> s[i] != 0
    ensures NonZeros(s) == 0 <==> forall i :: 0 <= i < |s| ==> s[i] == 0
  {
    if s != [] { NonZerosAtMost(s[..|s| - 1]); }
  }

  lemma NonZerosNext(s: seq<Byte>, i: nat)
    requires i <= |s|
    ensures NonZeros(s[i..]) == if i == |s| then 0 else (if s[i] != 0 then 1 else 0) + NonZeros(s[i + 1..])
  {
    if i < |s| {
      assert s[i..] == [s[i]] + s[i + 1..];
      NonZerosAppend([s[i]], s[i + 1..]);
    }
  }

  /** The body ends where its tail holds exactly sixteen non-zero bytes, the first of them in front. */
  predicate EndsAt(plain: seq<Byte>, end: nat) {
    end < |plain| && plain[end] != 0 && NonZeros(plain[end..]) == |HTTP_IV|
  }

  lemma EndIsUnique(plain: seq<Byte>, a: nat, b: nat)
    requires EndsAt(plain, a) && EndsAt(plain, b)
    ensures a == b
  {
    TailGrows(plain, a, b);
    TailGrows(plain, b, a);
  }

  lemma TailGrows(plain: seq<Byte>, a: nat, b: nat)
    requires a < |plain| && b < |plain| && plain[a] != 0
    ensures a < b ==> NonZeros(plain[a..]) > NonZeros(plain[b..])
  {
    if a < b {
      assert plain[a..] == [plain[a]] + plain[a + 1..b] + plain[b..];
      NonZerosAppend([plain[a]] + plain[a + 1..b], plain[b..]);
      NonZerosAppend([plain[a]], plain[a + 1..b]);
      assert NonZeros([plain[a]]) == 1;
    }
  }

  // ----- the envelope

  datatype Failure = BadLength | BadKeyIndex | MissingMarker | NoRandom

  datatype Result = Ok(bytes: seq<Byte>) | Err(failure: Failure)

  function Padded(body: seq<Byte>): (plain: seq<Byte>)
    ensures Blocks(plain) && |plain| >= |body| + BLOCK_SIZE
  {
    var n := (|body| + |HTTP_IV| + BLOCK_SIZE - 1) / BLOCK_SIZE * BLOCK_SIZE;
    body + HTTP_IV + seq(n - |body| - |HTTP_IV|, _ => 0)
  }

  lemma MarkerHasNoZero()
    ensures NonZeros(HTTP_IV) == |HTTP_IV|
  {
    NonZerosAtMost(HTTP_IV);
  }

  /** Whatever the body ends with, the scan stops at its end. */
  lemma PaddedEndsAtBody(body: seq<Byte>)
    ensures EndsAt(Padded(body), |body|)
  {
    var plain := Padded(body);
    var zeros := plain[|body| + |HTTP_IV|..];
    assert plain[|body|..] == HTTP_IV + zeros;
    NonZerosAppend(HTTP_IV, zeros);
    MarkerHasNoZero();
    NonZerosAtMost(zeros);
  }

  method EncryptX19HTTP(aes: string -> BlockCipher, body: seq<Byte>, drawn: Option<Byte>) returns (result: Result)
    requires drawn.Some? ==> drawn.value < 15
    ensures drawn.None? <==> result == Err(NoRandom)
    ensures drawn.Some? ==> result == Ok(Envelope(aes, body, drawn.value))
  {
    var paddedLength := (|body| + |HTTP_IV| + BLOCK_SIZE - 1) / BLOCK_SIZE * BLOCK_SIZE;
    var plain := body + HTTP_IV + seq(paddedLength - |body| - |HTTP_IV|, _ => 0);
    if drawn.None? {
      return Err(NoRandom);
    }
    var keyIndex := drawn.value;
    var encrypted := EncryptCBC(aes(HTTP_KEYS[keyIndex as int]), HTTP_IV, plain);
    result := Ok(HTTP_IV + encrypted + [(keyIndex << 4) | 2]);
  }

  function Envelope(aes: string -> BlockCipher, body: seq<Byte>, keyIndex: Byte): seq<Byte>
    requires keyIndex < 16
  {
    HTTP_IV + EncryptCBC(aes(HTTP_KEYS[keyIndex as int]), HTTP_IV, Padded(body)) + [(keyIndex << 4) | 2]
  }

  function KeyIndex(last: Byte): (index: nat)
    ensures index < 16
  {
    ((last >> 4) & 0x0F) as nat
  }

  predicate WellSized(body: seq<Byte>) {
    |body| >= 18 && (|body| - 17) % BLOCK_SIZE == 0
  }

  /** The blocks between the leading vector and the trailing key byte, decrypted. */
  function Opened(aes: string -> BlockCipher, body: seq<Byte>): seq<Byte>
    requires WellSized(body)
  {
    DecryptCBC(aes(HTTP_KEYS[KeyIndex(body[|body| - 1])]), body[..16], body[16..|body| - 1])
  }

  method DecryptX19HTTP(aes: string -> BlockCipher, body: seq<Byte>) returns (result: Result)
    ensures result.Ok? <==> WellSized(body) && NonZeros(Opened(aes, body)) >= |HTTP_IV|
    ensures result.Ok? ==> EndsAt(Opened(aes, body), |result.bytes|) && result.bytes == Opened(aes, body)[..|result.bytes|]
    ensures result.Err? ==> result.failure == if WellSized(body) then MissingMarker else BadLength
  {
    hide DecryptCBC, KeyIndex, NonZeros;
    if |body| < 18 || (|body| - 17) % BLOCK_SIZE != 0 {
      return Err(BadLength);
    }
    var keyIndex := KeyIndex(body[|body| - 1]);
    if keyIndex >= |HTTP_KEYS| {
      return Err(BadKeyIndex);
    }
    var plain := DecryptCBC(aes(HTTP_KEYS[keyIndex]), body[..16], body[16..|body| - 1]);
    NonZerosNext(plain, |plain|);
    var remaining, position := |HTTP_IV|, |plain| - 1;
    while remaining > 0 && position >= 0
      invariant -1 <= position < |plain| && remaining >= 0
      invariant NonZeros(plain[position + 1..]) == |HTTP_IV| - remaining
      invariant remaining == 0 ==> plain[position + 1] != 0
    {
      NonZerosNext(plain, position);
      if plain[position] != 0 {
        remaining := remaining - 1;
      }
      position := position - 1;
    }
    if remaining != 0 {
      assert plain[position + 1..] == plain;
      return Err(MissingMarker);
    }
    NonZerosAppend(plain[..position + 1], plain[position + 1..]);
    assert plain == plain[..position + 1] + plain[position + 1..];
    return Ok(plain[..position + 1]);
  }

  lemma KeyIndexSurvives(keyIndex: Byte)
    requires keyIndex < 16
    ensures KeyIndex((keyIndex << 4) | 2) == keyIndex as nat
  {
  }

  /** An envelope opens to the padded body. */
  lemma EnvelopeOpens(aes: string -> BlockCipher, body: seq<Byte>, keyIndex: Byte)
    requires keyIndex < 16 && Inverts(aes(HTTP_KEYS[keyIndex as int]))
    ensures WellSized(Envelope(aes, body, keyIndex))
    ensures Opened(aes, Envelope(aes, body, keyIndex)) == Padded(body)
  {
    var c := aes(HTTP_KEYS[keyIndex as int]);
    var text := EncryptCBC(c, HTTP_IV, Padded(body));
    var envelope := Envelope(aes, body, keyIndex);
    KeyIndexSurvives(keyIndex);
    assert envelope[|envelope| - 1] == (keyIndex << 4) | 2;
    assert envelope[..16] == HTTP_IV && envelope[16..|envelope| - 1] == text;
    CBCRoundTrip(c, HTTP_IV, Padded(body));
  }

  /** The envelope of a body satisfies the acceptance condition, and the body is what the scan keeps. */
  lemma EnvelopeHoldsBody(aes: string -> BlockCipher, body: seq<Byte>, keyIndex: Byte)
    requires keyIndex < 16 && Inverts(aes(HTTP_KEYS[keyIndex as int]))
    ensures var envelope := Envelope(aes, body, keyIndex);
      && WellSized(envelope) && NonZeros(Opened(aes, envelope)) >= |HTTP_IV|
      && EndsAt(Opened(aes, envelope), |body|) && Opened(aes, envelope)[..|body|] == body
  {
    EnvelopeOpens(aes, body, keyIndex);
    PaddedEndsAtBody(body);
    var plain := Padded(body);
    assert plain == plain[..|body|] + plain[|body|..];
    NonZerosAppend(plain[..|body|], plain[|body|..]);
  }

  /** Decrypting what was encrypted gives the body back, zero bytes at its end included. */
  method RoundTrip(aes: string -> BlockCipher, body: seq<Byte>, keyIndex: Byte) returns (result: Result)
    requires keyIndex < 15 && forall key :: key in HTTP_KEYS ==> Inverts(aes(key))
    ensures result == Ok(body)
  {
    var sent := EncryptX19HTTP(aes, body, Some(keyIndex));
    EnvelopeHoldsBody(aes, body, keyIndex);
    result := DecryptX19HTTP(aes, sent.bytes);
    EndIsUnique(Opened(aes, sent.bytes), |result.bytes|, |body|);
  }
}
