/**
 PasswordEncryptor: the database password is AES-encrypted under a fixed
 key and Base64-encoded; `Encrypt` first tries to decrypt its input and
 returns it unchanged when that succeeds.

 AES (FIPS 197, the JCA default "AES/ECB/PKCS5Padding"), the Base64 basic
 codec of RFC 4648 section 4, and the platform charset are not modelled
 bit by bit: they are the functions of a `Crypto` value. The proofs rely
 only on the inverse laws of `SealOpens` and, for a round trip, on the
 charset giving that one password back (`Recovers`).
 */
module PasswordEncryptor {
  import opened Wrappers

  newtype byte = x: int | 0 <= x < 256

  /** The library functions the encryptor calls. */
  datatype Crypto = Crypto(
    encode: seq<byte> -> string,                     // Base64.getEncoder().encodeToString
    decode: string -> Option<seq<byte>>,             // Base64.getDecoder().decode; None when not Base64
    seal: (seq<byte>, seq<byte>) -> seq<byte>,       // AES encryption under a key
    open: (seq<byte>, seq<byte>) -> Option<seq<byte>>, // AES decryption; None on a bad length or padding
    toBytes: string -> seq<byte>,                    // String.getBytes() in the platform charset
    fromBytes: seq<byte> -> string)                  // new String(bytes) in the platform charset

  /**
   The inverse laws of the codec and the cipher: Base64 decoding undoes
   encoding, and AES decryption under a 16-byte key undoes encryption
   under the same key.
   */
  ghost predicate SealOpens(c: Crypto) {
    && (forall b :: c.decode(c.encode(b)) == Some(b))
    && (forall k, b :: |k| == 16 ==> c.open(k, c.seal(k, b)) == Some(b))
  }

  /**
   The platform charset gives `s` back from its bytes. This holds for every
   string under a Unicode charset, and only for strings it can encode under
   a charset such as windows-1252, which writes '?' for the others.
   */
  predicate Recovers(c: Crypto, s: string) {
    c.fromBytes(c.toBytes(s)) == s
  }

  /** The hard-coded key text shared by every installation. */
  const Key: string := "n0Fpa+v74Ow6W5HY"

  predicate IsAscii(s: string) {
    forall i :: 0 <= i < |s| ==> s[i] as int < 128
  }

  /** The bytes of an ASCII text, the same in every ASCII-compatible charset. */
  function AsciiBytes(s: string): (b: seq<byte>)
    requires IsAscii(s)
    ensures |b| == |s|
    ensures forall i :: 0 <= i < |s| ==> b[i] as int == s[i] as int
  {
    seq(|s|, i requires 0 <= i < |s| => s[i] as int as byte)
  }

  /** `KEY.getBytes()`: sixteen bytes, an AES-128 key. */
  function KeyBytes(): (k: seq<byte>)
    ensures |k| == 16
  {
    assert IsAscii(Key);
    AsciiBytes(Key)
  }

  /**
   `decrypt`: Base64-decode, then AES-decrypt under the fixed key, then
   decode the bytes as text. None stands for the exception thrown when the
   text is not Base64 or the bytes are not a ciphertext under the key.
   */
  function Decrypt(c: Crypto, text: string): (r: Option<string>)
    ensures c.decode(text).None? ==> r.None?
    ensures c.decode(text).Some? && c.open(KeyBytes(), c.decode(text).value).None? ==> r.None?
    ensures r.Some? ==> c.decode(text).Some? && c.open(KeyBytes(), c.decode(text).value).Some?
  {
    match c.decode(text)
    case None => None
    case Some(cipherBytes) =>
      match c.open(KeyBytes(), cipherBytes)
      case None => None
      case Some(plainBytes) => Some(c.fromBytes(plainBytes))
  }

  /** The encrypting half of `encrypt`: AES under the fixed key, then Base64. */
  function Seal(c: Crypto, password: string): string {
    c.encode(c.seal(KeyBytes(), c.toBytes(password)))
  }

  /** Freshly sealed text always decrypts, to the charset's reading of the password's bytes. */
  lemma SealDecrypts(c: Crypto, password: string)
    requires SealOpens(c)
    ensures Decrypt(c, Seal(c, password)) == Some(c.fromBytes(c.toBytes(password)))
  {
    var k := KeyBytes();
    var ct := c.seal(k, c.toBytes(password));
    assert c.decode(c.encode(ct)) == Some(ct);
    assert c.open(k, ct) == Some(c.toBytes(password));
  }

  /** Freshly sealed text decrypts to the password it sealed when the charset gives that password back. */
  lemma SealRoundTrip(c: Crypto, password: string)
    requires SealOpens(c) && Recovers(c, password)
    ensures Decrypt(c, Seal(c, password)) == Some(password)
  {
    SealDecrypts(c, password);
  }

  /**
   `encrypt`: a value that already decrypts is taken to be ciphertext and
   returned unchanged; anything else is sealed.
   */
  function Encrypt(c: Crypto, password: string): string {
    if Decrypt(c, password).Some? then password else Seal(c, password)
  }

  /** Whatever `encrypt` returns decrypts, so the decrypt call that follows it never throws. */
  lemma EncryptedDecrypts(c: Crypto, password: string)
    requires SealOpens(c)
    ensures Decrypt(c, Encrypt(c, password)).Some?
  {
    if Decrypt(c, password).None? {
      SealDecrypts(c, password);
    }
  }

  /** Encrypting twice gives what encrypting once gave. */
  lemma EncryptIdempotent(c: Crypto, password: string)
    requires SealOpens(c)
    ensures Encrypt(c, Encrypt(c, password)) == Encrypt(c, password)
  {
    if Decrypt(c, password).None? {
      SealDecrypts(c, password);
    }
  }

  /**
   The round trip holds for passwords that do not already decrypt; for one
   that does, decrypting the result yields that decryption instead.
   */
  lemma EncryptRoundTrip(c: Crypto, password: string)
    requires SealOpens(c) && Recovers(c, password)
    ensures Decrypt(c, password).None? ==> Decrypt(c, Encrypt(c, password)) == Some(password)
    ensures Decrypt(c, password).Some? ==> Decrypt(c, Encrypt(c, password)) == Decrypt(c, password)
  {
    if Decrypt(c, password).None? {
      SealRoundTrip(c, password);
    }
  }

  /**
   The heuristic's false positive: a plaintext that happens to decrypt to
   some other text is stored as is, and the connection later receives that
   other text instead of the password.
   */
  lemma FalsePositive(c: Crypto, password: string)
    requires Decrypt(c, password).Some? && Decrypt(c, password).value != password
    ensures Encrypt(c, password) == password
    ensures Decrypt(c, Encrypt(c, password)) != Some(password)
  {
  }
}
