/** A stream cipher whose keys follow the plaintext, one symbol at a time. */
module StreamCipher {

  /** The stream symbol for a key, the key after a plaintext symbol, and how the two symbols mix. */
  datatype Cipher<!K, !B> = Cipher(stream: K -> B, update: (K, B) -> K, mix: (B, B) -> B)

  function KeysAfter<K, B>(c: Cipher<K, B>, k: K, plain: seq<B>): K
    decreases |plain|
  {
    if plain == [] then k else KeysAfter(c, c.update(k, plain[0]), plain[1..])
  }

  function Encrypt<K, B>(c: Cipher<K, B>, k: K, plain: seq<B>): (text: seq<B>)
    ensures |text| == |plain|
    decreases |plain|
  {
    if plain == [] then [] else
      [c.mix(plain[0], c.stream(k))] + Encrypt(c, c.update(k, plain[0]), plain[1..])
  }

  function Decrypt<K, B>(c: Cipher<K, B>, k: K, text: seq<B>): (plain: seq<B>)
    ensures |plain| == |text|
    decreases |text|
  {
    if text == [] then [] else
      var value := c.mix(text[0], c.stream(k));
      [value] + Decrypt(c, c.update(k, value), text[1..])
  }

  ghost predicate Involutive<B(!new)>(mix: (B, B) -> B) {
    forall a, b :: mix(mix(a, b), b) == a
  }

  /** Decryption undoes encryption under the same key. */
  lemma {:induction false} DecryptUndoesEncrypt<K, B(!new)>(c: Cipher<K, B>, k: K, plain: seq<B>)
    requires Involutive(c.mix)
    ensures Decrypt(c, k, Encrypt(c, k, plain)) == plain
    decreases |plain|
  {
    if plain != [] {
      assert c.mix(c.mix(plain[0], c.stream(k)), c.stream(k)) == plain[0];
      DecryptUndoesEncrypt(c, c.update(k, plain[0]), plain[1..]);
    }
  }

  /** Decrypting in two parts carries the key over. */
  lemma {:induction false} DecryptSplits<K, B>(c: Cipher<K, B>, k: K, a: seq<B>, b: seq<B>)
    ensures Decrypt(c, k, a + b) == Decrypt(c, k, a) + Decrypt(c, KeysAfter(c, k, Decrypt(c, k, a)), b)
    decreases |a|
  {
    if a == [] {
      assert a + b == b;
    } else {
      DecryptSplits(c, c.update(k, c.mix(a[0], c.stream(k))), a[1..], b);
      assert (a + b)[1..] == a[1..] + b;
    }
  }

  lemma {:induction false} KeysSplit<K, B>(c: Cipher<K, B>, k: K, a: seq<B>, b: seq<B>)
    ensures KeysAfter(c, k, a + b) == KeysAfter(c, KeysAfter(c, k, a), b)
    decreases |a|
  {
    if a == [] {
      assert a + b == b;
    } else {
      KeysSplit(c, c.update(k, a[0]), a[1..], b);
      assert (a + b)[1..] == a[1..] + b;
    }
  }

  /** Equal on every key and symbol. */
  ghost predicate SameCipher<K(!new), B(!new)>(c: Cipher<K, B>, d: Cipher<K, B>) {
    && (forall k :: c.stream(k) == d.stream(k))
    && (forall k, b :: c.update(k, b) == d.update(k, b))
    && (forall a, b :: c.mix(a, b) == d.mix(a, b))
  }

  lemma {:induction false} SameDecryption<K(!new), B(!new)>(c: Cipher<K, B>, d: Cipher<K, B>, k: K, text: seq<B>)
    requires SameCipher(c, d)
    ensures Decrypt(c, k, text) == Decrypt(d, k, text)
    decreases |text|
  {
    if text != [] {
      SameDecryption(c, d, c.update(k, c.mix(text[0], c.stream(k))), text[1..]);
    }
  }

  lemma {:induction false} SameKeys<K(!new), B(!new)>(c: Cipher<K, B>, d: Cipher<K, B>, k: K, plain: seq<B>)
    requires SameCipher(c, d)
    ensures KeysAfter(c, k, plain) == KeysAfter(d, k, plain)
    decreases |plain|
  {
    if plain != [] { SameKeys(c, d, c.update(k, plain[0]), plain[1..]); }
  }

  lemma {:induction false} NextSymbol<K, B>(c: Cipher<K, B>, k: K, text: seq<B>, index: nat)
    requires index < |text|
    ensures var plain := Decrypt(c, k, text);
      var after := KeysAfter(c, k, plain[..index]);
      && plain[index] == c.mix(text[index], c.stream(after))
      && KeysAfter(c, k, plain[..index + 1]) == c.update(after, plain[index])
    decreases index
  {
    var plain := Decrypt(c, k, text);
    if index == 0 {
      assert plain[..1][1..] == [];
    } else {
      NextSymbol(c, c.update(k, plain[0]), text[1..], index - 1);
      assert plain[..index][1..] == plain[1..][..index - 1];
      assert plain[..index + 1][1..] == plain[1..][..index];
    }
  }

  /** Decrypts count symbols of the buffer in place, symbol by symbol. */
  method DecryptInPlace<K, B>(c: Cipher<K, B>, k: K, buffer: array<B>, start: nat, count: nat) returns (after: K)
    requires start + count <= buffer.Length
    modifies buffer
    ensures buffer[..] == old(buffer[..])[..start] + Decrypt(c, k, old(buffer[start..start + count])) + old(buffer[..])[start + count..]
    ensures after == KeysAfter(c, k, Decrypt(c, k, old(buffer[start..start + count])))
  {
    ghost var text := buffer[start..start + count];
    ghost var plain := Decrypt(c, k, text);
    after := k;
    for index := 0 to count
      invariant after == KeysAfter(c, k, plain[..index])
      invariant forall i :: 0 <= i < index ==> buffer[start + i] == plain[i]
      invariant forall i :: start + index <= i < start + count ==> buffer[i] == text[i - start]
      invariant forall i :: 0 <= i < start || start + count <= i < buffer.Length ==> buffer[i] == old(buffer[i])
    {
      var value := c.mix(buffer[start + index], c.stream(after));
      NextSymbol(c, k, text, index);
      buffer[start + index] := value;
      after := c.update(after, value);
    }
    assert plain[..count] == plain;
    Assembled(old(buffer[..]), buffer[..], plain, start);
  }

  lemma Assembled<B>(before: seq<B>, after: seq<B>, middle: seq<B>, start: nat)
    requires |after| == |before| && start + |middle| <= |before|
    requires forall i :: 0 <= i < |middle| ==> after[start + i] == middle[i]
    requires forall i :: 0 <= i < start || start + |middle| <= i < |before| ==> after[i] == before[i]
    ensures after == before[..start] + middle + before[start + |middle|..]
  {
  }
}
