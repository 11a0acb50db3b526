/** The reader that decrypts an archive entry in place, whatever pieces its input comes in.
    daemon/internal/files/extract.go:392-449 */
module ZipReader {
  import opened StreamCipher
  import opened ZipCrypto

  /** An io.Reader over the encrypted entry: it delivers at most what fits, and may stop early. */
  class Input {
    var remaining: seq<Byte>
    /** How often it stopped with bytes left. */
    ghost var breaks: nat

    constructor (bytes: seq<Byte>)
      ensures remaining == bytes && breaks == 0
    {
      remaining, breaks := bytes, 0;
    }

    method Read(buffer: array<Byte>, start: nat) returns (count: nat, stop: bool)
      requires start <= buffer.Length
      modifies this, buffer
      ensures count <= buffer.Length - start && count <= |old(remaining)|
      ensures remaining == old(remaining)[count..]
      ensures buffer[..] == old(buffer[..start]) + old(remaining)[..count] + old(buffer[start + count..])
      ensures count == 0 && start < buffer.Length ==> stop
      ensures breaks == old(breaks) + if stop && remaining != [] then 1 else 0
    {
      count :| 0 <= count <= buffer.Length - start && count <= |remaining|;
      stop := *;
      stop := stop || (count == 0 && start < buffer.Length);
      for i := 0 to count
        invariant remaining == old(remaining) && breaks == old(breaks)
        invariant forall k :: 0 <= k < buffer.Length ==>
          buffer[k] == if start <= k < start + i then remaining[k - start] else old(buffer[k])
      {
        buffer[start + i] := remaining[i];
      }
      assert buffer[..] == old(buffer[..start]) + remaining[..count] + old(buffer[start + count..]);
      remaining := remaining[count..];
      breaks := breaks + if stop && remaining != [] then 1 else 0;
    }
  }

  function InitialKeys(password: seq<Byte>): Keys {
    KeysAfter(STANDARD, INITIAL_KEYS, password)
  }

  datatype OpenResult = Opened | InvalidArchive | InvalidPassword

  class ZipCryptoReader {
    const input: Input
    var keys: Keys

    /** What the reader has yet to deliver. */
    ghost function Rest(): seq<Byte>
      reads this, input
    {
      Decrypt(STANDARD, keys, input.remaining)
    }

    constructor (input: Input)
      ensures this.input == input && keys == INITIAL_KEYS
    {
      this.input, keys := input, INITIAL_KEYS;
    }

    method UsePassword(password: seq<Byte>)
      requires keys == INITIAL_KEYS
      modifies this
      ensures keys == InitialKeys(password)
    {
      ReaderIsStandard();
      keys := FeedKeys(READER, STANDARD, keys, password);
    }

    method Read(buffer: array<Byte>, start: nat) returns (count: nat, stop: bool)
      requires start <= buffer.Length
      modifies this, input, buffer
      ensures Delivered(STANDARD, old(keys), old(input.remaining), old(buffer[..]), start, count, keys, input.remaining, buffer[..])
      ensures count == 0 && start < buffer.Length ==> stop
      ensures input.breaks == old(input.breaks) + if stop && input.remaining != [] then 1 else 0
    {
      ReaderIsStandard();
      count, stop, keys := ReadAndDecrypt(READER, STANDARD, keys, input, buffer, start);
    }

    /** io.ReadFull of n bytes: complete unless the input stops early. */
    method ReadFull(n: nat) returns (data: seq<Byte>, complete: bool)
      modifies this, input
      ensures data + Rest() == old(Rest())
      ensures complete <==> |data| == n
      ensures input.breaks >= old(input.breaks)
      ensures input.breaks == old(input.breaks) ==> |data| == if n <= |old(Rest())| then n else |old(Rest())|
    {
      var buffer := new Byte[n](_ => 0);
      var filled, stop := 0, false;
      assert buffer[..0] + Rest() == Rest();
      while filled < n && !stop
        invariant filled <= n
        invariant buffer[..filled] + Rest() == old(Rest())
        invariant input.breaks >= old(input.breaks)
        invariant stop && input.breaks == old(input.breaks) ==> Rest() == []
        decreases !stop, n - filled
      {
        ghost var before, k, text := buffer[..], keys, input.remaining;
        var count;
        count, stop := Read(buffer, filled);
        DeliveredIsNext(STANDARD, k, text, before, filled, count, keys, input.remaining, buffer[..]);
        filled := filled + count;
        assert buffer[..][..filled] == buffer[..filled];
      }
      return buffer[..filled], filled == n;
    }

    /** The part of newZipCryptoReader after the keys are set up. */
    method CheckHeader(check: Byte) returns (result: OpenResult)
      modifies this, input
      ensures result == Opened ==> |old(Rest())| >= HEADER_SIZE && old(Rest())[HEADER_SIZE - 1] == check && Rest() == old(Rest())[HEADER_SIZE..]
      ensures result == InvalidPassword ==> |old(Rest())| >= HEADER_SIZE && old(Rest())[HEADER_SIZE - 1] != check
      ensures input.breaks >= old(input.breaks)
      ensures input.breaks == old(input.breaks) ==> (result == InvalidArchive <==> |old(Rest())| < HEADER_SIZE)
    {
      var header, complete := ReadFull(HEADER_SIZE);
      if !complete {
        return InvalidArchive;
      }
      assert old(Rest())[HEADER_SIZE - 1] == header[HEADER_SIZE - 1];
      if header[HEADER_SIZE - 1] != check {
        return InvalidPassword;
      }
      return Opened;
    }
  }

  method NewZipCryptoReader(input: Input, password: seq<Byte>, check: Byte) returns (reader: ZipCryptoReader, result: OpenResult)
    modifies input
    ensures fresh(reader) && reader.input == input
    ensures var plain := Decrypt(STANDARD, InitialKeys(password), old(input.remaining));
      && (result == Opened ==> |plain| >= HEADER_SIZE && plain[HEADER_SIZE - 1] == check && reader.Rest() == plain[HEADER_SIZE..])
      && (result == InvalidPassword ==> |plain| >= HEADER_SIZE && plain[HEADER_SIZE - 1] != check)
      && (input.breaks == old(input.breaks) ==> (result == InvalidArchive <==> |plain| < HEADER_SIZE))
    ensures input.breaks >= old(input.breaks)
  {
    reader := new ZipCryptoReader(input);
    reader.UsePassword(password);
    result := reader.CheckHeader(check);
  }

  function Total(pieces: seq<nat>): nat {
    if pieces == [] then 0 else Total(pieces[..|pieces| - 1]) + pieces[|pieces| - 1]
  }

  /** Reads in pieces of any sizes. */
  method ReadPieces(reader: ZipCryptoReader, pieces: seq<nat>) returns (output: seq<Byte>)
    modifies reader, reader.input
    ensures output + reader.Rest() == old(reader.Rest())
    ensures reader.input.remaining == [] ==> output == old(reader.Rest())
    ensures reader.input.breaks >= old(reader.input.breaks)
    ensures reader.input.breaks == old(reader.input.breaks) && Total(pieces) >= |old(reader.Rest())| ==> output == old(reader.Rest())
  {
    hide Decrypt;
    output := [];
    for i := 0 to |pieces|
      invariant output + reader.Rest() == old(reader.Rest())
      invariant reader.input.breaks >= old(reader.input.breaks)
      invariant reader.input.breaks == old(reader.input.breaks) ==> |output| >= Total(pieces[..i]) || reader.Rest() == []
    {
      assert pieces[..i + 1][..i] == pieces[..i];
      ghost var rest := reader.Rest();
      var data, complete := reader.ReadFull(pieces[i]);
      assert output + (data + reader.Rest()) == output + data + reader.Rest();
      output := output + data;
    }
    assert |reader.Rest()| == |reader.input.remaining|;
    assert pieces[..|pieces|] == pieces;
  }

  lemma EntryContents(password: seq<Byte>, header: seq<Byte>, plain: seq<Byte>)
    requires |header| == HEADER_SIZE
    ensures var all := Decrypt(STANDARD, InitialKeys(password), Encrypt(STANDARD, InitialKeys(password), header + plain));
      |all| >= HEADER_SIZE && all[HEADER_SIZE - 1] == header[HEADER_SIZE - 1] && all[HEADER_SIZE..] == plain
  {
    StandardIsInvolutive();
    DecryptUndoesEncrypt(STANDARD, InitialKeys(password), header + plain);
  }

  /** Reads an encrypted entry with the right password in pieces of any sizes: what comes out is the
      plaintext, in order, and all of it once the input is used up; an input that does not stop early is,
      if the pieces are enough. */
  method ExtractEntry(input: Input, password: seq<Byte>, check: Byte, pieces: seq<nat>, ghost header: seq<Byte>, ghost plain: seq<Byte>)
    returns (result: OpenResult, output: seq<Byte>)
    requires |header| == HEADER_SIZE && header[HEADER_SIZE - 1] == check
    requires input.remaining == Encrypt(STANDARD, InitialKeys(password), header + plain)
    modifies input
    ensures result != InvalidPassword
    ensures output <= plain && (result == Opened && input.remaining == [] ==> output == plain)
    ensures input.breaks == old(input.breaks) ==> result == Opened && (Total(pieces) >= |plain| ==> output == plain)
  {
    EntryContents(password, header, plain);
    var reader;
    reader, result := NewZipCryptoReader(input, password, check);
    output := [];
    if result == Opened {
      output := ReadPieces(reader, pieces);
    }
  }

  lemma DeliveredIsNext<K, B>(c: Cipher<K, B>, k: K, input: seq<B>, before: seq<B>, start: nat, count: nat,
                              after: K, rest: seq<B>, buffer: seq<B>)
    requires start <= |before|
    requires Delivered(c, k, input, before, start, count, after, rest, buffer)
    ensures |buffer| == |before|
    ensures buffer[..start + count] + Decrypt(c, after, rest) == before[..start] + Decrypt(c, k, input)
  {
    DecryptSplits(c, k, input[..count], input[count..]);
    assert input == input[..count] + input[count..];
    assert buffer[..start + count] == before[..start] + Decrypt(c, k, input[..count]);
  }

  /** Feeds the bytes of a password to the keys. */
  method FeedKeys<K(!new)>(c: Cipher<K, Byte>, ghost d: Cipher<K, Byte>, k: K, password: seq<Byte>) returns (after: K)
    requires SameCipher(c, d)
    ensures after == KeysAfter(d, k, password)
  {
    after := k;
    for i := 0 to |password|
      invariant after == KeysAfter(c, k, password[..i])
    {
      KeysSplit(c, k, password[..i], [password[i]]);
      assert password[..i + 1] == password[..i] + [password[i]];
      after := c.update(after, password[i]);
    }
    assert password[..|password|] == password;
    SameKeys(c, d, k, password);
  }

  /** One read delivered count symbols: the input gave up that many, their decryption is in the
      buffer from start on, and the key has moved past them. */
  ghost predicate Delivered<K, B>(c: Cipher<K, B>, k: K, input: seq<B>, before: seq<B>, start: nat, count: nat,
                                  after: K, rest: seq<B>, buffer: seq<B>)
    requires start <= |before|
  {
    && count <= |before| - start && count <= |input| && rest == input[count..]
    && buffer == before[..start] + Decrypt(c, k, input[..count]) + before[start + count..]
    && after == KeysAfter(c, k, Decrypt(c, k, input[..count]))
  }

  /** Reads some bytes into the buffer from start on and decrypts them in place; c is what runs, d
      what it amounts to. */
  method ReadAndDecrypt<K(!new)>(c: Cipher<K, Byte>, ghost d: Cipher<K, Byte>, k: K, input: Input, buffer: array<Byte>, start: nat)
    returns (count: nat, stop: bool, after: K)
    requires start <= buffer.Length && SameCipher(c, d)
    modifies input, buffer
    ensures Delivered(d, k, old(input.remaining), old(buffer[..]), start, count, after, input.remaining, buffer[..])
    ensures count == 0 && start < buffer.Length ==> stop
    ensures input.breaks == old(input.breaks) + if stop && input.remaining != [] then 1 else 0
  {
    ghost var before := buffer[..];
    count, stop := input.Read(buffer, start);
    ghost var text := buffer[start..start + count];
    assert text == old(input.remaining)[..count];
    assert buffer[..start] == before[..start] && buffer[start + count..] == before[start + count..];
    after := DecryptInPlace(c, k, buffer, start, count);
    SameDecryption(c, d, k, text);
    SameKeys(c, d, k, Decrypt(c, k, text));
  }
}
