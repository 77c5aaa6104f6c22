/** pkg/crypto/cipher.go: the encrypted envelope
    [2 bytes big-endian key length][wrapped key][nonce][ciphertext].
    RSA-OAEP and AES-GCM are the function values of a `Suite`. */
module Envelope {
  import opened Model

  type Byte = x: int | 0 <= x < 256
  type Bytes = seq<Byte>

  const WRAPPED_LEN_BYTES: nat := 2
  const AES_KEY_BYTES: nat := 32

  /** The primitives under one key pair. `nonceSize` is `gcm.NonceSize()`. */
  datatype Suite = Suite(
    wrap: Bytes -> Bytes,
    unwrap: Bytes -> Option<Bytes>,
    nonceSize: nat,
    seal: (Bytes, Bytes, Bytes) -> Bytes,            // key, nonce, plaintext
    open: (Bytes, Bytes, Bytes) -> Option<Bytes>)    // key, nonce, ciphertext

  /** Unwrapping inverts wrapping of AES-256 keys, opening inverts sealing. */
  ghost predicate Inverse(c: Suite) {
    && (forall key: Bytes :: |key| == AES_KEY_BYTES ==> c.unwrap(c.wrap(key)) == Some(key))
    && (forall key, nonce, text :: c.open(key, nonce, c.seal(key, nonce, text)) == Some(text))
  }

  datatype Result = Ok(bytes: Bytes) | TooLarge | TooShort | TruncatedKey | BadKey | BadKeySize | TruncatedNonce | BadText

  /** The key sizes AES accepts. */
  predicate IsAesKey(key: Bytes) {
    |key| == 16 || |key| == 24 || |key| == 32
  }

  /** The bytes of an envelope with the given parts. */
  function Frame(wrapped: Bytes, nonce: Bytes, text: Bytes): Bytes
    requires |wrapped| <= 0xFFFF
  {
    [|wrapped| / 256, |wrapped| % 256] + wrapped + nonce + text
  }

  method PutUint16(out: array<Byte>, v: nat)
    requires out.Length >= 2 && v <= 0xFFFF
    modifies out
    ensures out[..2] == [v / 256, v % 256] && out[2..] == old(out[2..])
  {
    out[0] := v / 256;
    out[1] := v % 256;
  }

  method CopyAt(out: array<Byte>, at: nat, src: Bytes)
    requires at + |src| <= out.Length
    modifies out
    ensures out[..at] == old(out[..at]) && out[at..at + |src|] == src && out[at + |src|..] == old(out[at + |src|..])
  {
    for i := 0 to |src|
      invariant out[..at] == old(out[..at])
      invariant out[at..at + i] == src[..i]
      invariant out[at + i..] == old(out[at + i..])
    {
      out[at + i] := src[i];
      assert out[at..at + i + 1] == out[at..at + i] + [src[i]];
    }
  }

  /** The buffer part of `Encrypt`: the length, then each part copied at its offset. */
  method Assemble(wrapped: Bytes, nonce: Bytes, text: Bytes) returns (envelope: Bytes)
    requires |wrapped| <= 0xFFFF
    ensures envelope == Frame(wrapped, nonce, text)
  {
    var n, k := |nonce|, WRAPPED_LEN_BYTES + |wrapped|;
    var out := new Byte[k + n + |text|](_ => 0);
    PutUint16(out, |wrapped|);
    CopyAt(out, WRAPPED_LEN_BYTES, wrapped);
    assert out[..k] == out[..2] + out[2..k];
    CopyAt(out, k, nonce);
    assert out[..k + n] == out[..k] + out[k..k + n];
    CopyAt(out, k + n, text);
    assert out[..] == out[..k + n] + out[k + n..k + n + |text|];
    envelope := out[..];
  }

  /** `Encrypt`; the random key and nonce are parameters. */
  method Encrypt(c: Suite, plaintext: Bytes, key: Bytes, nonce: Bytes) returns (r: Result)
    requires |key| == AES_KEY_BYTES && |nonce| == c.nonceSize
    ensures r == if |c.wrap(key)| > 0xFFFF then TooLarge
                 else Ok(Frame(c.wrap(key), nonce, c.seal(key, nonce, plaintext)))
  {
    var text := c.seal(key, nonce, plaintext);
    var wrapped := c.wrap(key);
    if |wrapped| > 0xFFFF { return TooLarge; }
    var envelope := Assemble(wrapped, nonce, text);
    return Ok(envelope);
  }

  function KeyLength(envelope: Bytes): nat
    requires |envelope| >= 2
  {
    var high: nat, low: nat := envelope[0], envelope[1];
    high * 256 + low
  }

  /** `Decrypt`, with its checks in the order the code makes them. */
  method Decrypt(c: Suite, envelope: Bytes) returns (r: Result)
    ensures r == Decrypted(c, envelope)
  {
    if |envelope| < WRAPPED_LEN_BYTES { return TooShort; }
    var keyLen := KeyLength(envelope);
    if |envelope| < WRAPPED_LEN_BYTES + keyLen { return TruncatedKey; }
    var wrapped := envelope[WRAPPED_LEN_BYTES..WRAPPED_LEN_BYTES + keyLen];
    var aesKey := c.unwrap(wrapped);
    if aesKey.None? { return BadKey; }
    if !IsAesKey(aesKey.value) { return BadKeySize; }
    if |envelope| < WRAPPED_LEN_BYTES + keyLen + c.nonceSize { return TruncatedNonce; }
    var nonce := envelope[WRAPPED_LEN_BYTES + keyLen..WRAPPED_LEN_BYTES + keyLen + c.nonceSize];
    var text := envelope[WRAPPED_LEN_BYTES + keyLen + c.nonceSize..];
    var plaintext := c.open(aesKey.value, nonce, text);
    if plaintext.None? { return BadText; }
    return Ok(plaintext.value);
  }

  /** The parts of an envelope that passes all length checks. */
  datatype Parts = Parts(wrapped: Bytes, nonce: Bytes, text: Bytes)

  function Parse(envelope: Bytes, nonceSize: nat): Option<Parts> {
    if |envelope| < 2 || |envelope| < 2 + KeyLength(envelope) + nonceSize then None
    else
      var k := 2 + KeyLength(envelope);
      Some(Parts(envelope[2..k], envelope[k..k + nonceSize], envelope[k + nonceSize..]))
  }

  /** What decoding means: the parts, unwrapped and opened; errors in the order of the checks. */
  function Decrypted(c: Suite, envelope: Bytes): Result {
    if |envelope| < 2 then TooShort
    else if |envelope| < 2 + KeyLength(envelope) then TruncatedKey
    else
      var key := c.unwrap(envelope[2..2 + KeyLength(envelope)]);
      if key.None? then BadKey
      else if !IsAesKey(key.value) then BadKeySize
      else match Parse(envelope, c.nonceSize)
        case None => TruncatedNonce
        case Some(p) =>
          var text := c.open(key.value, p.nonce, p.text);
          if text.Some? then Ok(text.value) else BadText
  }

  /** Parsing inverts framing, for every wrapped key that fits its length field. */
  lemma ParseFrame(wrapped: Bytes, nonce: Bytes, text: Bytes)
    requires |wrapped| <= 0xFFFF
    ensures Parse(Frame(wrapped, nonce, text), |nonce|) == Some(Parts(wrapped, nonce, text))
  {
    var e := Frame(wrapped, nonce, text);
    assert KeyLength(e) == |wrapped|;
    var k := 2 + |wrapped|;
    assert e[2..k] == wrapped;
    assert e[k..k + |nonce|] == nonce;
    assert e[k + |nonce|..] == text;
  }

  /** Framing inverts parsing: accepted envelopes lose no byte. */
  lemma FrameParse(envelope: Bytes, nonceSize: nat)
    requires Parse(envelope, nonceSize).Some?
    ensures var p := Parse(envelope, nonceSize).value;
            && |p.wrapped| <= 0xFFFF && |p.nonce| == nonceSize
            && Frame(p.wrapped, p.nonce, p.text) == envelope
  {
    var p := Parse(envelope, nonceSize).value;
    var k := 2 + KeyLength(envelope);
    assert envelope == envelope[..2] + envelope[2..k] + envelope[k..k + nonceSize] + envelope[k + nonceSize..];
    assert envelope[..2] == [|p.wrapped| / 256, |p.wrapped| % 256];
  }

  /** The length field is two bytes, most significant first, on both sides. */
  lemma LengthIsBigEndian(a: Byte, b: Byte, rest: Bytes, wrapped: Bytes, nonce: Bytes, text: Bytes)
    requires |wrapped| == 256 * a as int + b as int
    ensures KeyLength([a, b] + rest) == 256 * a as int + b as int
    ensures Frame(wrapped, nonce, text)[..2] == [a, b]
  {
  }

  /** Decrypt inverts Encrypt for every key pair, key, nonce and plaintext. */
  lemma DecryptEncrypt(c: Suite, plaintext: Bytes, key: Bytes, nonce: Bytes)
    requires Inverse(c) && |key| == AES_KEY_BYTES && |nonce| == c.nonceSize && |c.wrap(key)| <= 0xFFFF
    ensures Decrypted(c, Frame(c.wrap(key), nonce, c.seal(key, nonce, plaintext))) == Ok(plaintext)
  {
    var wrapped, text := c.wrap(key), c.seal(key, nonce, plaintext);
    var e := Frame(wrapped, nonce, text);
    ParseFrame(wrapped, nonce, text);
    assert KeyLength(e) == |wrapped|;
    assert e[2..2 + |wrapped|] == wrapped;
  }

  /** `e` is an envelope of `b`: framed from a wrapped AES key, a nonce of the GCM size and a
      ciphertext that authenticates under that key. */
  ghost predicate Envelops(c: Suite, e: Bytes, wrapped: Bytes, nonce: Bytes, text: Bytes, key: Bytes, b: Bytes) {
    && |wrapped| <= 0xFFFF && e == Frame(wrapped, nonce, text)
    && |nonce| == c.nonceSize
    && c.unwrap(wrapped) == Some(key) && IsAesKey(key)
    && c.open(key, nonce, text) == Some(b)
  }

  lemma KeyOfFrame(wrapped: Bytes, nonce: Bytes, text: Bytes)
    requires |wrapped| <= 0xFFFF
    ensures var e := Frame(wrapped, nonce, text);
            |e| >= 2 + |wrapped| && KeyLength(e) == |wrapped| && e[2..2 + |wrapped|] == wrapped
  {
  }

  /** For every byte string: `Decrypt` returns `b` iff the string is an envelope of `b`. A key
      that does not unwrap, a wrong key size, a tampered ciphertext or missing bytes are refused. */
  lemma DecryptsIff(c: Suite, e: Bytes, b: Bytes)
    ensures Decrypted(c, e) == Ok(b) <==> exists wrapped, nonce, text, key :: Envelops(c, e, wrapped, nonce, text, key, b)
  {
    if wrapped, nonce, text, key :| Envelops(c, e, wrapped, nonce, text, key, b) {
      ParseFrame(wrapped, nonce, text);
      KeyOfFrame(wrapped, nonce, text);
    }
    if Decrypted(c, e) == Ok(b) {
      var p := Parse(e, c.nonceSize).value;
      FrameParse(e, c.nonceSize);
      assert Envelops(c, e, p.wrapped, p.nonce, p.text, c.unwrap(p.wrapped).value, b);
    }
  }

  /** Which check refuses: each error of `Decrypt` and the first part that is wrong. */
  lemma RefusedBecause(c: Suite, e: Bytes)
    ensures Decrypted(c, e) == TooShort <==> |e| < 2
    ensures Decrypted(c, e) == TruncatedKey <==> |e| >= 2 && |e| < 2 + KeyLength(e)
    ensures Decrypted(c, e) != TooLarge
    ensures forall wrapped, nonce, text ::
              |wrapped| <= 0xFFFF && |nonce| == c.nonceSize && e == Frame(wrapped, nonce, text) ==>
                && (Decrypted(c, e) == BadKey <==> c.unwrap(wrapped) == None)
                && (Decrypted(c, e) == BadKeySize <==> c.unwrap(wrapped).Some? && !IsAesKey(c.unwrap(wrapped).value))
                && (Decrypted(c, e) == BadText <==>
                    c.unwrap(wrapped).Some? && IsAesKey(c.unwrap(wrapped).value) && c.open(c.unwrap(wrapped).value, nonce, text) == None)
  {
    forall wrapped, nonce, text |
      |wrapped| <= 0xFFFF && |nonce| == c.nonceSize && e == Frame(wrapped, nonce, text)
      ensures Parse(e, c.nonceSize) == Some(Parts(wrapped, nonce, text))
      ensures KeyLength(e) == |wrapped| && e[2..2 + |wrapped|] == wrapped
    {
      ParseFrame(wrapped, nonce, text);
      KeyOfFrame(wrapped, nonce, text);
    }
  }
}
