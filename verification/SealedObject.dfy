/**
 * Archive objects of src/content-archive.js: a chunk is compressed when that pays, sealed under the
 * vault key with its own digest as associated data, and laid out behind a fixed header.
 *
 * SHA-256 is idealised as one-to-one (a digest is a value built from its message). The cipher, the
 * keyed hash and the compressor are parameters with the laws the code relies on.
 */
module SealedObject {
  import opened Common
  import opened Chunker

  datatype Digest = Sha256(message: Bytes)

  type Key = Bytes

  /** The key's name is derived from its hash. */
  datatype KeyId = KeyId(key: Key)

  datatype ObjectId = ObjectId(hash: Digest)

  const MAGIC: Bytes := [0x51, 0x41, 0x52, 0x31]
  const CODEC_IDENTITY: Byte := 0
  const CODEC_BROTLI: Byte := 1
  const NONCE_BYTES := 12
  const TAG_BYTES := 16
  const HEADER_BYTES := 4 + 1 + NONCE_BYTES + TAG_BYTES

  datatype Sealed = Sealed(ciphertext: Bytes, tag: Bytes)

  datatype Crypto = Crypto(
    rawDigest: Digest -> Bytes,
    hmac: (Key, Bytes) -> Bytes,
    seal: (Key, Bytes, Bytes, Bytes) -> Sealed,
    open: (Key, Bytes, Bytes, Sealed) -> Option<Bytes>,
    compress: Bytes -> Bytes,
    decompress: Bytes -> Option<Bytes>)

  /** AES-256-GCM opens what it sealed (NIST SP 800-38D, 7.1 and 7.2); Brotli decompresses what it compressed. */
  ghost predicate Lawful(c: Crypto) {
    && (forall k: Key, data: Bytes :: |c.hmac(k, data)| == 32)
    && (forall k: Key, nonce: Bytes, aad: Bytes, plain: Bytes ::
          && |c.seal(k, nonce, aad, plain).ciphertext| == |plain|
          && |c.seal(k, nonce, aad, plain).tag| == TAG_BYTES
          && c.open(k, nonce, aad, c.seal(k, nonce, aad, plain)) == Some(plain))
    && (forall plain: Bytes :: c.decompress(c.compress(plain)) == Some(plain))
  }

  /** The laws can be met: here by a cipher that hides nothing. */
  lemma LawsAreConsistent()
    ensures exists c: Crypto :: Lawful(c)
  {
    var c := Crypto(
      d => [],
      (k, data) => seq(32, _ => 0),
      (k, nonce, aad, plain) => Sealed(plain, seq(TAG_BYTES, _ => 0)),
      (k, nonce, aad, s: Sealed) => Some(s.ciphertext),
      plain => plain,
      packed => Some(packed));
    assert Lawful(c);
  }

  datatype Compressed = Compressed(code: Byte, bytes: Bytes)

  function CompressChunk(c: Crypto, chunk: Bytes): Compressed {
    if chunk == [] then Compressed(CODEC_IDENTITY, chunk)
    else
      var packed := c.compress(chunk);
      if |packed| + 16 < |chunk| then Compressed(CODEC_BROTLI, packed) else Compressed(CODEC_IDENTITY, chunk)
  }

  function Nonce(c: Crypto, key: Key, hash: Digest): Bytes {
    var mac := c.hmac(key, c.rawDigest(hash));
    if |mac| >= NONCE_BYTES then mac[..NONCE_BYTES] else mac
  }

  function AssociatedData(c: Crypto, code: Byte, hash: Digest): Bytes {
    MAGIC + [code] + c.rawDigest(hash)
  }

  function EncryptObject(c: Crypto, compressed: Compressed, hash: Digest, key: Key): Bytes {
    var nonce := Nonce(c, key, hash);
    var s := c.seal(key, nonce, AssociatedData(c, compressed.code, hash), compressed.bytes);
    MAGIC + [compressed.code] + nonce + s.tag + s.ciphertext
  }

  datatype ObjectError = BadHeader | BadCodec | BadNonce | BadTag | BadCompression

  function DecryptObject(c: Crypto, payload: Bytes, hash: Digest, key: Key): Result<Bytes, ObjectError> {
    if |payload| < HEADER_BYTES || payload[..4] != MAGIC then Err(BadHeader)
    else
      var code := payload[4];
      if code != CODEC_IDENTITY && code != CODEC_BROTLI then Err(BadCodec)
      else
        var nonce := payload[5..17];
        if nonce != Nonce(c, key, hash) then Err(BadNonce)
        else
          match c.open(key, nonce, AssociatedData(c, code, hash), Sealed(payload[33..], payload[17..33]))
          case None => Err(BadTag)
          case Some(unsealed) =>
            if code == CODEC_BROTLI then
              match c.decompress(unsealed)
              case None => Err(BadCompression)
              case Some(plain) => Ok(plain)
            else Ok(unsealed)
  }

  /** The stored object of a chunk under a key. */
  function Payload(c: Crypto, key: Key, chunk: Bytes): Bytes {
    EncryptObject(c, CompressChunk(c, chunk), Sha256(chunk), key)
  }

  /** The header fields are found again where they were put. */
  lemma HeaderSlices(code: Byte, nonce: Bytes, s: Sealed)
    requires |nonce| == NONCE_BYTES && |s.tag| == TAG_BYTES
    ensures var payload := MAGIC + [code] + nonce + s.tag + s.ciphertext;
            && |payload| == HEADER_BYTES + |s.ciphertext|
            && payload[..4] == MAGIC && payload[4] == code && payload[5..17] == nonce
            && Sealed(payload[33..], payload[17..33]) == s
  {
    var payload := MAGIC + [code] + nonce + s.tag + s.ciphertext;
    assert payload[17..33] == s.tag;
    assert payload[33..] == s.ciphertext;
  }

  /** Opening a stored object gives back the chunk, whichever way it was compressed. */
  lemma PayloadOpens(c: Crypto, key: Key, chunk: Bytes)
    requires Lawful(c)
    ensures DecryptObject(c, Payload(c, key, chunk), Sha256(chunk), key) == Ok(chunk)
    ensures HEADER_BYTES <= |Payload(c, key, chunk)| <= HEADER_BYTES + |chunk|
  {
    var hash := Sha256(chunk);
    var compressed := CompressChunk(c, chunk);
    var nonce := Nonce(c, key, hash);
    var aad := AssociatedData(c, compressed.code, hash);
    assert |c.hmac(key, c.rawDigest(hash))| == 32;
    var s := c.seal(key, nonce, aad, compressed.bytes);
    assert c.open(key, nonce, aad, s) == Some(compressed.bytes);
    HeaderSlices(compressed.code, nonce, s);
    assert c.decompress(c.compress(chunk)) == Some(chunk);
  }
}
