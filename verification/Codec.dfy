/**
 * The stored form of a block: one magic byte, the nonce if encrypted, the payload
 * (encode_block, block_magic and decode_block in core/src/pipeline/mod.rs).
 *
 * Compression, encryption and hashing are parameters with inverse laws; `LawsHold`
 * shows the laws can be met. The main result is the exact condition under which a
 * stored block reads back.
 */
module Codec {
  import opened Common

  type Hash = string

  datatype Compression = Uncompressed | Zstd(level: int) | Lz4
  datatype Encryption = Unencrypted | Aes256Gcm | ChaCha20Poly1305

  const MAGIC_RAW: byte := 0x00
  const MAGIC_ZSTD: byte := 0x01
  const MAGIC_LZ4: byte := 0x02
  const MAGIC_RAW_AES: byte := 0x31
  const MAGIC_ZSTD_AES: byte := 0x11
  const MAGIC_LZ4_AES: byte := 0x21
  const MAGIC_RAW_CHACHA: byte := 0x32
  const MAGIC_ZSTD_CHACHA: byte := 0x12
  const MAGIC_LZ4_CHACHA: byte := 0x22
  const NONCE_LEN: nat := 12
  const MAX_BLOCK: nat := 64 * 1024 * 1024

  datatype CodecError = EmptyBlock | TooShort | KeyRequired | DecryptFailed | DecompressFailed | TooLarge

  datatype Algorithms = Algorithms(
    sha256: bytes -> Hash,
    zstd: (bytes, int) -> bytes,
    unzstd: bytes -> Option<bytes>,
    lz4: bytes -> bytes,
    unlz4: bytes -> Option<bytes>,
    encrypt: (Encryption, bytes, bytes, bytes) -> bytes,
    decrypt: (Encryption, bytes, bytes, bytes) -> Option<bytes>)

  /** Decompression and decryption (by cipher, key and nonce) undo their counterparts. */
  ghost predicate Lawful(alg: Algorithms) {
    && (forall data: bytes, level: int :: alg.unzstd(alg.zstd(data, level)) == Some(data))
    && (forall data: bytes :: alg.unlz4(alg.lz4(data)) == Some(data))
    && (forall e: Encryption, key: bytes, nonce: bytes, data: bytes | |nonce| == NONCE_LEN ::
          alg.decrypt(e, key, nonce, alg.encrypt(e, key, nonce, data)) == Some(data))
  }

  ghost predicate InjectiveOn(alg: Algorithms, seen: iset<bytes>) {
    forall a: bytes, b: bytes | a in seen && b in seen && alg.sha256(a) == alg.sha256(b) :: a == b
  }

  function Spelled(data: bytes): (s: string)
    ensures |s| == |data| && forall i :: 0 <= i < |s| ==> s[i] as int == data[i]
  {
    if data == [] then [] else [data[0] as char] + Spelled(data[1..])
  }

  /** The laws, and an injective hash, can be met: by the algorithms that do nothing. */
  lemma LawsHold() returns (alg: Algorithms)
    ensures Lawful(alg) && forall seen: iset<bytes> :: InjectiveOn(alg, seen)
  {
    alg := Algorithms(Spelled, (data, level) => data, data => Some(data), data => data, data => Some(data),
                      (e, key, nonce, data) => data, (e, key, nonce, data) => Some(data));
    forall a: bytes, b: bytes | Spelled(a) == Spelled(b)
      ensures a == b
    {
      assert forall i :: 0 <= i < |a| ==> a[i] == Spelled(a)[i] as int == b[i];
    }
  }

  function BlockMagic(c: Compression, e: Encryption): byte {
    match (c, e)
    case (Uncompressed, Unencrypted) => MAGIC_RAW
    case (Zstd(_), Unencrypted) => MAGIC_ZSTD
    case (Lz4, Unencrypted) => MAGIC_LZ4
    case (Uncompressed, Aes256Gcm) => MAGIC_RAW_AES
    case (Zstd(_), Aes256Gcm) => MAGIC_ZSTD_AES
    case (Lz4, Aes256Gcm) => MAGIC_LZ4_AES
    case (Uncompressed, ChaCha20Poly1305) => MAGIC_RAW_CHACHA
    case (Zstd(_), ChaCha20Poly1305) => MAGIC_ZSTD_CHACHA
    case (Lz4, ChaCha20Poly1305) => MAGIC_LZ4_CHACHA
  }

  function Compress(alg: Algorithms, c: Compression, data: bytes): bytes {
    match c
    case Uncompressed => data
    case Zstd(level) => alg.zstd(data, level)
    case Lz4 => alg.lz4(data)
  }

  /** The encrypted magic is written even when there is no key and so no encryption. */
  function Encode(alg: Algorithms, c: Compression, e: Encryption, key: Option<bytes>, nonce: bytes, data: bytes): bytes {
    var compressed := Compress(alg, c, data);
    [BlockMagic(c, e)]
    + if e != Unencrypted && key.Some? then nonce + alg.encrypt(e, key.value, nonce, compressed) else compressed
  }

  function Cipher(magic: byte): Encryption {
    if magic in {MAGIC_RAW_AES, MAGIC_ZSTD_AES, MAGIC_LZ4_AES} then Aes256Gcm
    else if magic in {MAGIC_RAW_CHACHA, MAGIC_ZSTD_CHACHA, MAGIC_LZ4_CHACHA} then ChaCha20Poly1305
    else Unencrypted
  }

  function Unwrap(alg: Algorithms, raw: bytes, key: Option<bytes>): Result<bytes, CodecError>
    requires raw != []
  {
    if Cipher(raw[0]) == Unencrypted then Ok(raw[1..])
    else if |raw| < 1 + NONCE_LEN then Err(TooShort)
    else if key.None? then Err(KeyRequired)
    else
      match alg.decrypt(Cipher(raw[0]), key.value, raw[1..1 + NONCE_LEN], raw[1 + NONCE_LEN..])
      case Some(payload) => Ok(payload)
      case None => Err(DecryptFailed)
  }

  function Limited(out: Option<bytes>): Result<bytes, CodecError> {
    if out.None? then Err(DecompressFailed)
    else if |out.value| > MAX_BLOCK then Err(TooLarge)
    else Ok(out.value)
  }

  function Decode(alg: Algorithms, raw: bytes, key: Option<bytes>): Result<bytes, CodecError> {
    if raw == [] then Err(EmptyBlock)
    else
      match Unwrap(alg, raw, key)
      case Err(e) => Err(e)
      case Ok(payload) =>
        if raw[0] in {MAGIC_ZSTD, MAGIC_ZSTD_AES, MAGIC_ZSTD_CHACHA} then Limited(alg.unzstd(payload))
        else if raw[0] in {MAGIC_LZ4, MAGIC_LZ4_AES, MAGIC_LZ4_CHACHA} then Limited(alg.unlz4(payload))
        else Limited(Some(payload))
  }

  lemma UnwrapEncoded(alg: Algorithms, c: Compression, e: Encryption, key: Option<bytes>, nonce: bytes, data: bytes)
    requires Lawful(alg) && |nonce| == NONCE_LEN
    ensures var u := Unwrap(alg, Encode(alg, c, e, key, nonce, data), key);
            if e == Unencrypted || key.Some? then u == Ok(Compress(alg, c, data)) else u.Err?
  {
    var compressed := Compress(alg, c, data);
    var raw := Encode(alg, c, e, key, nonce, data);
    assert Cipher(raw[0]) == e;
    if e != Unencrypted && key.Some? {
      assert raw[1..1 + NONCE_LEN] == nonce;
      assert raw[1 + NONCE_LEN..] == alg.encrypt(e, key.value, nonce, compressed);
    } else {
      assert raw[1..] == compressed;
    }
  }

  /** A stored block reads back exactly when encryption comes with a key and the data is at most 64 MiB. */
  lemma RoundTripExactly(alg: Algorithms, c: Compression, e: Encryption, key: Option<bytes>, nonce: bytes, data: bytes)
    requires Lawful(alg) && |nonce| == NONCE_LEN
    ensures Decode(alg, Encode(alg, c, e, key, nonce, data), key) == Ok(data) <==>
            (e == Unencrypted || key.Some?) && |data| <= MAX_BLOCK
  {
    UnwrapEncoded(alg, c, e, key, nonce, data);
    assert Encode(alg, c, e, key, nonce, data)[0] == BlockMagic(c, e);
  }
}
