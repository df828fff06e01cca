/** The chunked public-key encryption of internal/encrypt/encrypt.go.
    Key loading is abstracted to its outcome (a key of `size` bytes or one
    of the four load errors); RSAES-PKCS1-v1_5 encryption of one chunk is an
    oracle that returns the chunk's ciphertext or an error. */
module Encrypt {
  import opened Wrappers
  import Base64

  type byte = Base64.byte

  /** Padding overhead of RSAES-PKCS1-v1_5: section 7.2.1 of RFC 8017 admits
      a message of at most k - 11 bytes under a k-byte modulus. */
  const PKCS1_OVERHEAD: int := 11

  /** Modulus sizes in bytes for which a chunk can hold at least one byte. */
  type KeySize = k: int | k > PKCS1_OVERHEAD witness 12

  /** A parsed RSA public key, known here only by its size in bytes
      (`rsaPubKey.Size()`). */
  datatype PublicKey = PublicKey(size: KeySize)

  /** The four ways loading the key file can fail. */
  datatype KeyError =
    | FileUnreadable(cause: string)   // os.ReadFile failed
    | NoPublicKeyBlock                // no PEM block, or not of type PUBLIC KEY
    | Unparsable(cause: string)       // x509.ParsePKIXPublicKey failed
    | NotRsaKey                       // the parsed key is not an RSA key

  /** The error text RsaEncode returns for each load failure. */
  function KeyErrorText(e: KeyError): string
  {
    match e
    case FileUnreadable(cause) => "读取公钥文件失败: " + cause + "。"
    case NoPublicKeyBlock => "从PEM文件中没有找到公钥。"
    case Unparsable(cause) => "解析公钥失败: " + cause + "。"
    case NotRsaKey => "RSA公钥不符合规范。"
  }

  /** Prefix of the error returned when one chunk fails to encrypt. */
  const CHUNK_FAILURE_PREFIX: string := "RSA加密数据块失败: "

  /** Encryption of one chunk under a key: its ciphertext, or an error text.
      A function of key and chunk: the fresh random padding of every call is
      not modelled, so equal chunks give equal ciphertexts here. */
  type ChunkCipher = (PublicKey, seq<byte>) -> Result<seq<byte>, string>

  /** The largest chunk a key of this size accepts. */
  function MaxChunkSize(pk: PublicKey): (m: nat)
    ensures m > 0 && m + PKCS1_OVERHEAD == pk.size
  {
    pk.size - PKCS1_OVERHEAD
  }

  /** The successive chunks the loop hands to the cipher: each takes the next
      `max` bytes, the last one whatever remains. */
  function Chunks(p: seq<byte>, max: nat): seq<seq<byte>>
    requires max > 0
    decreases |p|
  {
    if |p| == 0 then []
    else
      var n := if |p| < max then |p| else max;
      [p[..n]] + Chunks(p[n..], max)
  }

  /** Concatenation of a sequence of byte strings, in order. */
  function Flatten(cs: seq<seq<byte>>): seq<byte>
  {
    if cs == [] then [] else cs[0] + Flatten(cs[1..])
  }

  lemma FlattenAppend(cs: seq<seq<byte>>, c: seq<byte>)
    ensures Flatten(cs + [c]) == Flatten(cs) + c
  {
    if cs != [] {
      assert (cs + [c])[1..] == cs[1..] + [c];
      FlattenAppend(cs[1..], c);
    } else {
      assert [c][1..] == [];
    }
  }

  /** Every chunk is non-empty and at most `max` bytes; all but the last are
      exactly `max` bytes. */
  lemma {:induction false} ChunkBounds(p: seq<byte>, max: nat)
    requires max > 0
    ensures forall i :: 0 <= i < |Chunks(p, max)| ==> 0 < |Chunks(p, max)[i]| <= max
    ensures forall i :: 0 <= i < |Chunks(p, max)| - 1 ==> |Chunks(p, max)[i]| == max
    decreases |p|
  {
    if |p| > 0 {
      var n := if |p| < max then |p| else max;
      ChunkBounds(p[n..], max);
      assert n < max ==> Chunks(p[n..], max) == [];
    }
  }

  /** The chunks, concatenated in order, are exactly the plaintext: no gap,
      no overlap, no reordering. */
  lemma {:induction false} ChunksCover(p: seq<byte>, max: nat)
    requires max > 0
    ensures Flatten(Chunks(p, max)) == p
    decreases |p|
  {
    if |p| > 0 {
      var n := if |p| < max then |p| else max;
      ChunksCover(p[n..], max);
      var cs := Chunks(p, max);
      assert cs[0] == p[..n] && cs[1..] == Chunks(p[n..], max);
      assert p == p[..n] + p[n..];
    }
  }

  lemma MulAtLeast(k: int, m: int)
    requires k >= 1 && m > 0
    ensures k * m >= m
  {
  }

  /** Euclidean division has one quotient. */
  lemma DivUnique(x: int, m: int, q: int)
    requires m > 0 && 0 <= x - q * m < m
    ensures x / m == q
  {
    var d, r := x / m, x % m;
    assert x == d * m + r;
    if d > q {
      MulAtLeast(d - q, m);
      assert false;
    } else if d < q {
      MulAtLeast(q - d, m);
      assert false;
    }
  }

  /** ceil(L / m) for a single, possibly short, chunk. */
  lemma CeilOne(len: int, m: int)
    requires 0 < len <= m
    ensures (len + m - 1) / m == 1
  {
    DivUnique(len + m - 1, m, 1);
  }

  /** ceil(L / m) goes up by one for every full chunk. */
  lemma CeilStep(len: int, m: int)
    requires m > 0 && len >= m
    ensures (len + m - 1) / m == (len - m + m - 1) / m + 1
  {
    var a := len - m + m - 1;
    var q := a / m;
    assert a == q * m + a % m;
    assert (len + m - 1) - (q + 1) * m == a % m;
    DivUnique(len + m - 1, m, q + 1);
  }

  /** There are ceil(L / max) chunks for L plaintext bytes; none for L = 0. */
  lemma {:induction false} ChunkCount(p: seq<byte>, max: nat)
    requires max > 0
    ensures |Chunks(p, max)| == (|p| + max - 1) / max
    ensures |p| == 0 <==> Chunks(p, max) == []
    decreases |p|
  {
    if |p| > 0 {
      var n := if |p| < max then |p| else max;
      ChunkCount(p[n..], max);
      assert Chunks(p, max) == [p[..n]] + Chunks(p[n..], max);
      assert |p[n..]| == |p| - n;
      if n < max {
        CeilOne(|p|, max);
      } else {
        CeilStep(|p|, max);
      }
    }
  }

  /** Ciphertext of each chunk, concatenated in input order; the first chunk
      that fails makes the whole result that chunk's error. */
  function EncryptAll(pk: PublicKey, cs: seq<seq<byte>>, cipher: ChunkCipher): Result<seq<byte>, string>
  {
    if cs == [] then Ok([])
    else
      match cipher(pk, cs[0])
      case Err(e) => Err(e)
      case Ok(c) =>
        match EncryptAll(pk, cs[1..], cipher)
        case Err(e) => Err(e)
        case Ok(rest) => Ok(c + rest)
  }

  /** `r` with `prefix` put in front of its bytes when it is a success. */
  function Prepend(prefix: seq<byte>, r: Result<seq<byte>, string>): Result<seq<byte>, string>
  {
    match r
    case Ok(b) => Ok(prefix + b)
    case Err(e) => Err(e)
  }

  lemma PrependNothing(r: Result<seq<byte>, string>)
    ensures Prepend([], r) == r
  {
    if r.Ok? {
      assert [] + r.value == r.value;
    }
  }

  /** One chunk of the loop: its ciphertext moves from the pending result
      into the buffer, or its error becomes the result. */
  lemma EncryptStep(pk: PublicKey, buffer: seq<byte>, chunk: seq<byte>, rest: seq<seq<byte>>, cipher: ChunkCipher)
    ensures cipher(pk, chunk).Ok? ==>
      Prepend(buffer + cipher(pk, chunk).value, EncryptAll(pk, rest, cipher))
      == Prepend(buffer, EncryptAll(pk, [chunk] + rest, cipher))
    ensures cipher(pk, chunk).Err? ==>
      Prepend(buffer, EncryptAll(pk, [chunk] + rest, cipher)) == Err(cipher(pk, chunk).error)
  {
    assert ([chunk] + rest)[0] == chunk && ([chunk] + rest)[1..] == rest;
    match EncryptAll(pk, rest, cipher)
    case Ok(tail) =>
      if cipher(pk, chunk).Ok? {
        var c := cipher(pk, chunk).value;
        assert (buffer + c) + tail == buffer + (c + tail);
      }
    case Err(_) =>
  }

  lemma ChunksStep(p: seq<byte>, max: nat, n: nat)
    requires max > 0 && |p| > 0 && n == (if |p| < max then |p| else max)
    ensures Chunks(p, max) == [p[..n]] + Chunks(p[n..], max)
  {
  }

  /** Handing over the next chunk keeps the handed chunks a prefix of all
      chunks and the handed bytes a prefix of the plaintext. */
  lemma HandOver(data: seq<byte>, handed: seq<seq<byte>>, p: seq<byte>, max: nat, n: nat)
    requires max > 0 && |p| > 0 && n == (if |p| < max then |p| else max)
    requires Chunks(data, max) == handed + Chunks(p, max)
    requires Flatten(handed) + p == data
    ensures Chunks(data, max) == (handed + [p[..n]]) + Chunks(p[n..], max)
    ensures Flatten(handed + [p[..n]]) + p[n..] == data
  {
    HandOverChunks(data, handed, p, max, n);
    HandOverBytes(data, handed, p, n);
  }

  lemma HandOverChunks(data: seq<byte>, handed: seq<seq<byte>>, p: seq<byte>, max: nat, n: nat)
    requires max > 0 && |p| > 0 && n == (if |p| < max then |p| else max)
    requires Chunks(data, max) == handed + Chunks(p, max)
    ensures Chunks(data, max) == (handed + [p[..n]]) + Chunks(p[n..], max)
  {
    ChunksStep(p, max, n);
    SeqAssoc(handed, [p[..n]], Chunks(p[n..], max));
  }

  lemma HandOverBytes(data: seq<byte>, handed: seq<seq<byte>>, p: seq<byte>, n: nat)
    requires n <= |p|
    requires Flatten(handed) + p == data
    ensures Flatten(handed + [p[..n]]) + p[n..] == data
  {
    FlattenAppend(handed, p[..n]);
    assert p == p[..n] + p[n..];
    SeqAssoc(Flatten(handed), p[..n], p[n..]);
  }

  lemma SeqAssoc<X>(a: seq<X>, b: seq<X>, c: seq<X>)
    ensures a + (b + c) == (a + b) + c
  {
  }

  /** Encrypting one more chunk appends its ciphertext to the buffer. */
  lemma {:induction false} EncryptAllSnoc(pk: PublicKey, cs: seq<seq<byte>>, c: seq<byte>, cipher: ChunkCipher)
    requires EncryptAll(pk, cs, cipher).Ok? && cipher(pk, c).Ok?
    ensures EncryptAll(pk, cs + [c], cipher) == Ok(EncryptAll(pk, cs, cipher).value + cipher(pk, c).value)
  {
    if cs == [] {
      var x := cipher(pk, c).value;
      assert cs + [c] == [c] && [c][1..] == [];
      assert EncryptAll(pk, [c], cipher) == Ok(x + []);
      assert x + [] == x && [] + x == x;
    } else {
      EncryptAllCons(pk, cs, cipher);
      assert (cs + [c])[0] == cs[0] && (cs + [c])[1..] == cs[1..] + [c];
      EncryptAllSnoc(pk, cs[1..], c, cipher);
      SeqAssoc(cipher(pk, cs[0]).value, EncryptAll(pk, cs[1..], cipher).value, cipher(pk, c).value);
    }
  }

  /** The whole routine as a value: the load error, the first chunk error,
      or the base64 text of the ordered ciphertext. */
  function RsaEncoding(data: seq<byte>, key: Result<PublicKey, KeyError>, cipher: ChunkCipher): Result<string, string>
  {
    match key
    case Err(e) => Err(KeyErrorText(e))
    case Ok(pk) =>
      match EncryptAll(pk, Chunks(data, MaxChunkSize(pk)), cipher)
      case Err(e) => Err(CHUNK_FAILURE_PREFIX + e)
      case Ok(buffer) => Ok(Base64.Encode(buffer))
  }

  /** Every chunk of `cs` encrypts. */
  predicate AllEncrypt(pk: PublicKey, cs: seq<seq<byte>>, cipher: ChunkCipher)
  {
    forall i :: 0 <= i < |cs| ==> cipher(pk, cs[i]).Ok?
  }

  /** Encryption of all chunks succeeds exactly when every chunk encrypts. */
  lemma {:induction false} EncryptAllSucceeds(pk: PublicKey, cs: seq<seq<byte>>, cipher: ChunkCipher)
    ensures EncryptAll(pk, cs, cipher).Ok? <==> AllEncrypt(pk, cs, cipher)
  {
    if cs != [] {
      EncryptAllSucceeds(pk, cs[1..], cipher);
      assert forall i :: 1 <= i < |cs| ==> cs[i] == cs[1..][i - 1];
    }
  }

  /** A failed encryption reports the error of the first chunk that failed;
      every chunk before it encrypted. */
  lemma {:induction false} EncryptAllFirstError(pk: PublicKey, cs: seq<seq<byte>>, cipher: ChunkCipher)
    requires EncryptAll(pk, cs, cipher).Err?
    ensures exists i :: 0 <= i < |cs| && cipher(pk, cs[i]) == Err(EncryptAll(pk, cs, cipher).error)
                        && forall j :: 0 <= j < i ==> cipher(pk, cs[j]).Ok?
  {
    if cipher(pk, cs[0]).Err? {
      assert cipher(pk, cs[0]) == Err(EncryptAll(pk, cs, cipher).error);
    } else {
      EncryptAllFirstError(pk, cs[1..], cipher);
      var i :| 0 <= i < |cs[1..]| && cipher(pk, cs[1..][i]) == Err(EncryptAll(pk, cs[1..], cipher).error)
               && forall j :: 0 <= j < i ==> cipher(pk, cs[1..][j]).Ok?;
      assert forall j :: 1 <= j < i + 1 ==> cs[j] == cs[1..][j - 1];
      assert cipher(pk, cs[i + 1]) == Err(EncryptAll(pk, cs, cipher).error);
    }
  }

  /** The cipher behaves as RSAES-PKCS1-v1_5 (section 7.2.1 of RFC 8017)
      does: every ciphertext is exactly k bytes long for a k-byte key. */
  ghost predicate KeySizedOutput(pk: PublicKey, cipher: ChunkCipher)
  {
    forall c :: cipher(pk, c).Ok? ==> |cipher(pk, c).value| == pk.size
  }

  /** With k-byte ciphertexts the buffer is chunks * k bytes long, and cutting
      it into k-byte blocks gives back each chunk's ciphertext, in input
      order, with nothing between them. */
  lemma {:induction false} CiphertextLayout(pk: PublicKey, cs: seq<seq<byte>>, cipher: ChunkCipher)
    requires KeySizedOutput(pk, cipher)
    requires EncryptAll(pk, cs, cipher).Ok?
    ensures |EncryptAll(pk, cs, cipher).value| == |cs| * pk.size
    ensures |Chunks(EncryptAll(pk, cs, cipher).value, pk.size)| == |cs|
    ensures forall i :: 0 <= i < |cs| ==>
              cipher(pk, cs[i]) == Ok(Chunks(EncryptAll(pk, cs, cipher).value, pk.size)[i])
  {
    if cs != [] {
      EncryptAllCons(pk, cs, cipher);
      var c := cipher(pk, cs[0]).value;
      var rest := EncryptAll(pk, cs[1..], cipher).value;
      CiphertextLayout(pk, cs[1..], cipher);
      var buffer := c + rest;
      MulStep(|cs|, pk.size);
      ChunksStep(buffer, pk.size, pk.size);
      assert buffer[..pk.size] == c && buffer[pk.size..] == rest;
      var blocks := Chunks(buffer, pk.size);
      forall i | 0 <= i < |cs|
        ensures cipher(pk, cs[i]) == Ok(blocks[i])
      {
        if i > 0 {
          assert cs[i] == cs[1..][i - 1];
          assert blocks[i] == Chunks(rest, pk.size)[i - 1];
        }
      }
    }
  }

  /** A successful encryption of a non-empty list is the first ciphertext
      followed by the successful encryption of the rest. */
  lemma EncryptAllCons(pk: PublicKey, cs: seq<seq<byte>>, cipher: ChunkCipher)
    requires cs != [] && EncryptAll(pk, cs, cipher).Ok?
    ensures cipher(pk, cs[0]).Ok? && EncryptAll(pk, cs[1..], cipher).Ok?
    ensures EncryptAll(pk, cs, cipher).value == cipher(pk, cs[0]).value + EncryptAll(pk, cs[1..], cipher).value
  {
  }

  lemma MulStep(n: int, k: int)
    requires n >= 1
    ensures n * k == k + (n - 1) * k
  {
  }

  /** Decryption with the matching private key, block by block: the
      plaintexts concatenated, or `None` once a block does not decrypt. */
  function DecryptBlocks(blocks: seq<seq<byte>>, decipher: seq<byte> -> Option<seq<byte>>): Option<seq<byte>>
  {
    if blocks == [] then Some([])
    else
      match decipher(blocks[0])
      case None => None
      case Some(p) =>
        match DecryptBlocks(blocks[1..], decipher)
        case None => None
        case Some(rest) => Some(p + rest)
  }

  /** The private key undoes the cipher on every chunk the loop can produce. */
  ghost predicate Inverts(pk: PublicKey, cipher: ChunkCipher, decipher: seq<byte> -> Option<seq<byte>>)
  {
    forall c :: 0 < |c| <= MaxChunkSize(pk) && cipher(pk, c).Ok? ==> decipher(cipher(pk, c).value) == Some(c)
  }

  lemma {:induction false} DecryptEachBlock(blocks: seq<seq<byte>>, cs: seq<seq<byte>>, decipher: seq<byte> -> Option<seq<byte>>)
    requires |blocks| == |cs|
    requires forall i :: 0 <= i < |cs| ==> decipher(blocks[i]) == Some(cs[i])
    ensures DecryptBlocks(blocks, decipher) == Some(Flatten(cs))
  {
    if cs != [] {
      assert forall i :: 1 <= i < |cs| ==> blocks[1..][i - 1] == blocks[i] && cs[1..][i - 1] == cs[i];
      DecryptEachBlock(blocks[1..], cs[1..], decipher);
    }
  }

  /** The round-trip law: decoding the base64 text, cutting it into k-byte
      blocks and decrypting each block with the matching private key gives
      back the plaintext exactly. */
  lemma RoundTrip(data: seq<byte>, pk: PublicKey, cipher: ChunkCipher, decipher: seq<byte> -> Option<seq<byte>>)
    requires KeySizedOutput(pk, cipher) && Inverts(pk, cipher, decipher)
    requires RsaEncoding(data, Ok(pk), cipher).Ok?
    ensures Base64.Decode(RsaEncoding(data, Ok(pk), cipher).value).Some?
    ensures DecryptBlocks(Chunks(Base64.Decode(RsaEncoding(data, Ok(pk), cipher).value).value, pk.size), decipher)
            == Some(data)
  {
    var cs := Chunks(data, MaxChunkSize(pk));
    var buffer := EncryptAll(pk, cs, cipher).value;
    Base64.RoundTrip(buffer);
    CiphertextLayout(pk, cs, cipher);
    ChunkBounds(data, MaxChunkSize(pk));
    DecryptEachBlock(Chunks(buffer, pk.size), cs, decipher);
    ChunksCover(data, MaxChunkSize(pk));
  }

  /** A key that does not load is reported as such, whatever the plaintext;
      with a key, an empty plaintext yields the empty text. */
  lemma RsaEncodingEdgeCases(data: seq<byte>, key: Result<PublicKey, KeyError>, cipher: ChunkCipher)
    ensures key.Err? ==> RsaEncoding(data, key, cipher) == Err(KeyErrorText(key.error))
    ensures key.Ok? && data == [] ==> RsaEncoding(data, key, cipher) == Ok("")
  {
  }

  /** With a key, the routine succeeds exactly when every chunk encrypts. */
  lemma RsaEncodingSucceeds(data: seq<byte>, pk: PublicKey, cipher: ChunkCipher)
    ensures RsaEncoding(data, Ok(pk), cipher).Ok? <==> AllEncrypt(pk, Chunks(data, MaxChunkSize(pk)), cipher)
  {
    EncryptAllSucceeds(pk, Chunks(data, MaxChunkSize(pk)), cipher);
  }

  /** Chunk `i` is the first of `cs` that does not encrypt. */
  predicate FailsFirstAt(pk: PublicKey, cs: seq<seq<byte>>, cipher: ChunkCipher, i: int)
  {
    0 <= i < |cs| && cipher(pk, cs[i]).Err? && forall j :: 0 <= j < i ==> cipher(pk, cs[j]).Ok?
  }

  /** A failure names the first chunk that did not encrypt, under the
      chunk-failure prefix; no partial ciphertext is returned. */
  lemma RsaEncodingChunkError(data: seq<byte>, pk: PublicKey, cipher: ChunkCipher)
    requires RsaEncoding(data, Ok(pk), cipher).Err?
    ensures exists i ::
              && FailsFirstAt(pk, Chunks(data, MaxChunkSize(pk)), cipher, i)
              && RsaEncoding(data, Ok(pk), cipher)
                 == Err(CHUNK_FAILURE_PREFIX + cipher(pk, Chunks(data, MaxChunkSize(pk))[i]).error)
  {
    var cs := Chunks(data, MaxChunkSize(pk));
    EncryptAllFirstError(pk, cs, cipher);
    var i :| 0 <= i < |cs| && cipher(pk, cs[i]) == Err(EncryptAll(pk, cs, cipher).error)
             && forall j :: 0 <= j < i ==> cipher(pk, cs[j]).Ok?;
    assert FailsFirstAt(pk, cs, cipher, i);
  }

  /** On success with k-byte ciphertexts the text is 4 * ceil(n / 3)
      characters for the n = chunks * k bytes of the buffer. */
  lemma RsaEncodingLength(data: seq<byte>, pk: PublicKey, cipher: ChunkCipher)
    requires KeySizedOutput(pk, cipher) && RsaEncoding(data, Ok(pk), cipher).Ok?
    ensures var n := |Chunks(data, MaxChunkSize(pk))| * pk.size;
      |RsaEncoding(data, Ok(pk), cipher).value| == 4 * ((n + 2) / 3)
  {
    CiphertextLayout(pk, Chunks(data, MaxChunkSize(pk)), cipher);
  }

  /** RsaEncode: loads the key, encrypts the plaintext chunk by chunk into a
      buffer and returns the buffer in base64; `Err` stands for the pair
      ("", error). */
  method RsaEncode(data: seq<byte>, key: Result<PublicKey, KeyError>, cipher: ChunkCipher)
    returns (r: Result<string, string>)
    ensures r == RsaEncoding(data, key, cipher)
  {
    if key.Err? {
      return Err(KeyErrorText(key.error));
    }
    var pk := key.value;
    var maxChunkSize := MaxChunkSize(pk);
    var encryptedBytes: seq<byte> := [];
    var plaintextBytes := data;
    ghost var handed: seq<seq<byte>> := [];
    PrependNothing(EncryptAll(pk, Chunks(data, maxChunkSize), cipher));
    while |plaintextBytes| > 0
      invariant Chunks(data, maxChunkSize) == handed + Chunks(plaintextBytes, maxChunkSize)
      invariant Flatten(handed) + plaintextBytes == data
      invariant EncryptAll(pk, handed, cipher) == Ok(encryptedBytes)
      invariant Prepend(encryptedBytes, EncryptAll(pk, Chunks(plaintextBytes, maxChunkSize), cipher))
             == EncryptAll(pk, Chunks(data, maxChunkSize), cipher)
      decreases |plaintextBytes|
    {
      var chunkSize := maxChunkSize;
      if |plaintextBytes| < chunkSize {
        chunkSize := |plaintextBytes|;
      }
      var chunk := plaintextBytes[..chunkSize];
      var rest := plaintextBytes[chunkSize..];
      ChunksStep(plaintextBytes, maxChunkSize, chunkSize);
      var encrypted := cipher(pk, chunk);
      EncryptStep(pk, encryptedBytes, chunk, Chunks(rest, maxChunkSize), cipher);
      if encrypted.Err? {
        return Err(CHUNK_FAILURE_PREFIX + encrypted.error);
      }
      HandOver(data, handed, plaintextBytes, maxChunkSize, chunkSize);
      EncryptAllSnoc(pk, handed, chunk, cipher);
      encryptedBytes := encryptedBytes + encrypted.value;
      handed := handed + [chunk];
      plaintextBytes := rest;
    }
    assert encryptedBytes + [] == encryptedBytes;
    return Ok(Base64.Encode(encryptedBytes));
  }
}
