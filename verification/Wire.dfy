/** The request path from agent to handler (sender.go, then the middleware of newRouter in
    its order: crypto, gzip, hash) and the signed, compressed response path back. */
module Wire {
  import opened Model
  import opened Envelope

  // ---- pkg/hash/hash.go ----

  type Nibble = x: int | 0 <= x < 16

  function HexDigit(n: Nibble): char {
    "0123456789abcdef"[n]
  }

  function FromNibbles(hi: Nibble, lo: Nibble): Byte {
    var h: int, l: int := hi, lo;
    h * 16 + l
  }

  function HexValue(c: char): Option<Nibble> {
    if '0' <= c <= '9' then Some(c as int - '0' as int)
    else if 'a' <= c <= 'f' then Some(c as int - 'a' as int + 10)
    else if 'A' <= c <= 'F' then Some(c as int - 'A' as int + 10)
    else None
  }

  function HexEncode(b: Bytes): string {
    if b == [] then "" else [HexDigit(b[0] / 16), HexDigit(b[0] % 16)] + HexEncode(b[1..])
  }

  function HexDecode(s: string): Option<Bytes> {
    if s == "" then Some([])
    else if |s| == 1 then None
    else
      var hi, lo, rest := HexValue(s[0]), HexValue(s[1]), HexDecode(s[2..]);
      if hi.Some? && lo.Some? && rest.Some? then Some([FromNibbles(hi.value, lo.value)] + rest.value) else None
  }

  lemma HexDecodeCons(hi: char, lo: char, rest: string)
    requires HexValue(hi).Some? && HexValue(lo).Some? && HexDecode(rest).Some?
    ensures HexDecode([hi, lo] + rest) ==
            Some([FromNibbles(HexValue(hi).value, HexValue(lo).value)] + HexDecode(rest).value)
  {
    assert ([hi, lo] + rest)[2..] == rest;
  }

  lemma HexStep(x: Byte, rest: Bytes)
    requires HexDecode(HexEncode(rest)) == Some(rest)
    ensures HexDecode([HexDigit(x / 16), HexDigit(x % 16)] + HexEncode(rest)) == Some([x] + rest)
  {
    DigitValue(x / 16);
    DigitValue(x % 16);
    HexDecodeCons(HexDigit(x / 16), HexDigit(x % 16), HexEncode(rest));
  }

  lemma {:induction false} HexRoundTrip(b: Bytes)
    ensures HexDecode(HexEncode(b)) == Some(b)
    ensures |HexEncode(b)| == 2 * |b|
  {
    if b != [] {
      HexRoundTrip(b[1..]);
      HexStep(b[0], b[1..]);
      assert b == [b[0]] + b[1..];
    }
  }

  lemma DigitValue(n: Nibble)
    ensures HexValue(HexDigit(n)) == Some(n)
  {
    assert HexDigit(n) == if n < 10 then '0' + n as char else 'a' + (n - 10) as char;
  }

  predicate LowerDigit(c: char) {
    '0' <= c <= '9' || 'a' <= c <= 'f'
  }

  /** The two digits of a byte: lower case, high nibble first. */
  predicate DigitsOf(x: Byte, hi: char, lo: char) {
    && LowerDigit(hi) && LowerDigit(lo) && HexValue(hi).Some? && HexValue(lo).Some?
    && x as int == 16 * HexValue(hi).value as int + HexValue(lo).value as int
  }

  lemma ByteDigits(x: Byte)
    ensures DigitsOf(x, HexDigit(x / 16), HexDigit(x % 16))
  {
    DigitValue(x / 16);
    DigitValue(x % 16);
  }

  lemma {:induction false} HexText(b: Bytes, i: nat)
    requires i < |b|
    ensures |HexEncode(b)| == 2 * |b|
    ensures DigitsOf(b[i], HexEncode(b)[2 * i], HexEncode(b)[2 * i + 1])
  {
    HexRoundTrip(b);
    ByteDigits(b[0]);
    if i > 0 {
      var rest := HexEncode(b[1..]);
      HexText(b[1..], i - 1);
      assert HexEncode(b)[2 * i] == rest[2 * (i - 1)] && HexEncode(b)[2 * i + 1] == rest[2 * (i - 1) + 1];
    }
  }

  /** Compression, the MAC and the envelope primitives. A gzip stream is a function of the
      chunks written to it. */
  datatype Gunzipped = BadHeader | BadStream | Plain(bytes: Bytes)

  datatype Crypto = Crypto(
    suite: Suite,
    gzip: seq<Bytes> -> Bytes,
    gunzip: Bytes -> Gunzipped,
    mac: (string, Bytes) -> Bytes)

  function Flatten(chunks: seq<Bytes>): Bytes {
    if chunks == [] then [] else Flatten(chunks[..|chunks| - 1]) + chunks[|chunks| - 1]
  }

  ghost predicate Lawful(c: Crypto) {
    && Inverse(c.suite)
    && (forall key: Bytes :: |key| == AES_KEY_BYTES ==> |c.suite.wrap(key)| <= 0xFFFF)
    && (forall chunks :: c.gunzip(c.gzip(chunks)) == Plain(Flatten(chunks)))
    && (forall key, body :: |c.mac(key, body)| == 32)
  }

  function Sign(c: Crypto, body: Bytes, key: string): string {
    HexEncode(c.mac(key, body))
  }

  predicate Equal(a: string, b: string) {
    HexDecode(a).Some? && HexDecode(a) == HexDecode(b)
  }

  lemma SignEqual(c: Crypto, header: string, body: Bytes, key: string)
    ensures Equal(header, Sign(c, body, key)) <==> HexDecode(header) == Some(c.mac(key, body))
  {
    HexRoundTrip(c.mac(key, body));
  }

  // ---- requests ----

  const HASH_HEADER := "HashSHA256"
  const CRYPTO_HEADER := "X-Crypto-Encrypted"
  const ENCODING_HEADER := "Content-Encoding"

  type Headers = map<string, string>

  function Get(h: Headers, name: string): string {
    if name in h then h[name] else ""
  }

  /** A request as the server reads it; a body that fails to read is None. */
  datatype Message = Message(headers: Headers, body: Option<Bytes>)

  class Request {
    var headers: Headers
    var body: Option<Bytes>

    constructor (body: Bytes)
      ensures View() == Message(map[], Some(body))
    {
      this.headers := map[];
      this.body := Some(body);
    }

    function View(): Message
      reads this
    {
      Message(headers, body)
    }

    method Set(name: string, value: string)
      modifies this
      ensures View() == old(View()).(headers := old(headers)[name := value])
    {
      headers := headers[name := value];
    }

    /** CryptoMiddleware; `priv` is whether the server has a private key. */
    method Decode(c: Crypto, priv: bool) returns (status: nat)
      modifies this
      ensures Went(CryptoStep(c, priv, old(View())), status, View())
    {
      if !priv || Get(headers, CRYPTO_HEADER) == "" { return 0; }
      if body.None? { return 400; }
      var r := Decrypt(c.suite, body.value);
      if !r.Ok? { return 400; }
      body := Some(r.bytes);
      headers := headers - {CRYPTO_HEADER};
      return 0;
    }

    /** The request half of GzipMiddleware: the header is checked now, the stream when read. */
    method Inflate(c: Crypto) returns (status: nat)
      modifies this
      ensures Went(GzipStep(c, old(View())), status, View())
    {
      if Get(headers, ENCODING_HEADER) == "gzip" {
        if body.None? { return 400; }
        match c.gunzip(body.value) {
          case BadHeader => return 400;
          case BadStream => body := None;
          case Plain(b) => body := Some(b);
        }
      }
      return 0;
    }

    /** The request half of HashMiddleware. */
    method Verify(c: Crypto, key: string) returns (status: nat)
      modifies this
      ensures Went(HashStep(c, key, old(View())), status, View())
    {
      if key == "" { return 0; }
      if body.None? { return 500; }
      var incoming := Get(headers, HASH_HEADER);
      if incoming != "" && !Equal(incoming, Sign(c, body.value, key)) { return 400; }
      return 0;
    }

    /** The middleware in `newRouter` order. */
    method Serve(c: Crypto, priv: bool, key: string) returns (status: nat)
      modifies this
      ensures Went(ServerChain(c, priv, key, old(View())), status, View())
    {
      status := Decode(c, priv);
      if status != 0 { return; }
      status := Inflate(c);
      if status != 0 { return; }
      status := Verify(c, key);
    }
  }

  /** What a middleware decides: pass a request on, or answer with an error status. */
  datatype Step = Pass(m: Message) | Reject(status: nat)

  /** A method's status and request state agree with a decision; zero means passed on. */
  predicate Went(s: Step, status: nat, m: Message) {
    match s
    case Pass(n) => status == 0 && m == n
    case Reject(code) => status == code && code != 0
  }

  function CryptoStep(c: Crypto, priv: bool, m: Message): Step {
    if !priv || Get(m.headers, CRYPTO_HEADER) == "" then Pass(m)
    else if m.body.None? then Reject(400)
    else match Decrypted(c.suite, m.body.value)
      case Ok(p) => Pass(Message(m.headers - {CRYPTO_HEADER}, Some(p)))
      case _ => Reject(400)
  }

  function GzipStep(c: Crypto, m: Message): Step {
    if Get(m.headers, ENCODING_HEADER) != "gzip" then Pass(m)
    else if m.body.None? then Reject(400)
    else match c.gunzip(m.body.value)
      case BadHeader => Reject(400)
      case BadStream => Pass(m.(body := None))
      case Plain(b) => Pass(m.(body := Some(b)))
  }

  function HashStep(c: Crypto, key: string, m: Message): Step {
    if key == "" then Pass(m)
    else if m.body.None? then Reject(500)
    else if Get(m.headers, HASH_HEADER) != "" && !Equal(Get(m.headers, HASH_HEADER), Sign(c, m.body.value, key)) then Reject(400)
    else Pass(m)
  }

  function Then(s: Step, f: Message -> Step): Step {
    if s.Pass? then f(s.m) else s
  }

  function ServerChain(c: Crypto, priv: bool, key: string, m: Message): Step {
    Then(Then(CryptoStep(c, priv, m), n => GzipStep(c, n)), n => HashStep(c, key, n))
  }

  /** `newRequest`: gzip, then encrypt, then the headers; the signature covers the plain body.
      `pub` is whether the agent has a public key; `aesKey` and `nonce` are the random draws. */
  method NewRequest(c: Crypto, body: Bytes, key: string, pub: bool, aesKey: Bytes, nonce: Bytes, localIP: string)
    returns (r: Request?)
    requires |aesKey| == AES_KEY_BYTES && |nonce| == c.suite.nonceSize
    ensures r == null <==> pub && |c.suite.wrap(aesKey)| > 0xFFFF
    ensures r != null ==> fresh(r) && r.View() == Outgoing(c, body, key, pub, aesKey, nonce, localIP)
  {
    var gz := c.gzip([body]);
    var reqBody := gz;
    var encrypted := false;
    if pub {
      var envelope := Encrypt(c.suite, gz, aesKey, nonce);
      if !envelope.Ok? { return null; }
      reqBody := envelope.bytes;
      encrypted := true;
    }
    r := new Request(reqBody);
    r.Set("Content-Type", "application/json");
    r.Set(ENCODING_HEADER, "gzip");
    r.Set("Accept-Encoding", "gzip");
    if encrypted {
      r.Set(CRYPTO_HEADER, "1");
    }
    if localIP != "" {
      r.Set("X-Real-IP", localIP);
    }
    if key != "" {
      r.Set(HASH_HEADER, Sign(c, body, key));
    }
  }

  function OutgoingBody(c: Crypto, body: Bytes, pub: bool, aesKey: Bytes, nonce: Bytes): Bytes
    requires pub ==> |c.suite.wrap(aesKey)| <= 0xFFFF
  {
    if pub then Frame(c.suite.wrap(aesKey), nonce, c.suite.seal(aesKey, nonce, c.gzip([body]))) else c.gzip([body])
  }

  function Outgoing(c: Crypto, body: Bytes, key: string, pub: bool, aesKey: Bytes, nonce: Bytes, localIP: string): Message
    requires pub ==> |c.suite.wrap(aesKey)| <= 0xFFFF
  {
    var h0: Headers := map["Content-Type" := "application/json"][ENCODING_HEADER := "gzip"]["Accept-Encoding" := "gzip"];
    var h1 := if pub then h0[CRYPTO_HEADER := "1"] else h0;
    var h2 := if localIP != "" then h1["X-Real-IP" := localIP] else h1;
    var h3 := if key != "" then h2[HASH_HEADER := Sign(c, body, key)] else h2;
    Message(h3, Some(OutgoingBody(c, body, pub, aesKey, nonce)))
  }

  lemma GetUpdated(h: Headers, k: string, v: string, name: string)
    ensures Get(h[k := v], name) == if name == k then v else Get(h, name)
  {
  }

  lemma HeaderNamesDiffer()
    ensures HASH_HEADER != CRYPTO_HEADER && HASH_HEADER != ENCODING_HEADER && CRYPTO_HEADER != ENCODING_HEADER
    ensures forall k :: k in [HASH_HEADER, CRYPTO_HEADER, ENCODING_HEADER] ==>
                          k != "X-Real-IP" && k != "Accept-Encoding" && k != "Content-Type"
  {
    assert |HASH_HEADER| == 10 && |CRYPTO_HEADER| == 18 && |ENCODING_HEADER| == 16;
    assert |"X-Real-IP"| == 9 && |"Accept-Encoding"| == 15 && |"Content-Type"| == 12;
  }

  lemma OutgoingHeader(c: Crypto, body: Bytes, key: string, pub: bool, aesKey: Bytes, nonce: Bytes, localIP: string, name: string)
    requires pub ==> |c.suite.wrap(aesKey)| <= 0xFFFF
    requires name in [HASH_HEADER, CRYPTO_HEADER, ENCODING_HEADER]
    ensures Get(Outgoing(c, body, key, pub, aesKey, nonce, localIP).headers, name) ==
            if name == HASH_HEADER && key != "" then Sign(c, body, key)
            else if name == CRYPTO_HEADER && pub then "1"
            else if name == ENCODING_HEADER then "gzip"
            else ""
  {
    HeaderNamesDiffer();
    var h0: Headers := map["Content-Type" := "application/json"][ENCODING_HEADER := "gzip"]["Accept-Encoding" := "gzip"];
    assert Get(h0, name) == if name == ENCODING_HEADER then "gzip" else "";
    GetUpdated(h0, CRYPTO_HEADER, "1", name);
    var h1 := if pub then h0[CRYPTO_HEADER := "1"] else h0;
    GetUpdated(h1, "X-Real-IP", localIP, name);
    var h2 := if localIP != "" then h1["X-Real-IP" := localIP] else h1;
    GetUpdated(h2, HASH_HEADER, Sign(c, body, key), name);
  }

  /** The headers no layer of the server undoes: JSON, gzip accepted, and the agent's address. */
  lemma OutgoingPlainHeaders(c: Crypto, body: Bytes, key: string, pub: bool, aesKey: Bytes, nonce: Bytes, localIP: string)
    requires pub ==> |c.suite.wrap(aesKey)| <= 0xFFFF
    ensures var h := Outgoing(c, body, key, pub, aesKey, nonce, localIP).headers;
            Get(h, "Content-Type") == "application/json" && Get(h, "Accept-Encoding") == "gzip" && Get(h, "X-Real-IP") == localIP
  {
    HeaderNamesDiffer();
    assert CRYPTO_HEADER in [HASH_HEADER, CRYPTO_HEADER, ENCODING_HEADER];
    assert |"X-Real-IP"| == 9 && |"Accept-Encoding"| == 15 && |"Content-Type"| == 12;
  }

  lemma OutgoingHeaders(c: Crypto, body: Bytes, key: string, pub: bool, aesKey: Bytes, nonce: Bytes, localIP: string)
    requires Lawful(c) && |aesKey| == AES_KEY_BYTES
    ensures var h := Outgoing(c, body, key, pub, aesKey, nonce, localIP).headers;
            && Get(h, ENCODING_HEADER) == "gzip"
            && (Get(h, CRYPTO_HEADER) == "" <==> !pub)
            && Get(h, HASH_HEADER) == (if key != "" then Sign(c, body, key) else "")
            && (Get(h, HASH_HEADER) == "" <==> key == "")
  {
    HeaderNamesDiffer();
    OutgoingHeader(c, body, key, pub, aesKey, nonce, localIP, HASH_HEADER);
    OutgoingHeader(c, body, key, pub, aesKey, nonce, localIP, CRYPTO_HEADER);
    OutgoingHeader(c, body, key, pub, aesKey, nonce, localIP, ENCODING_HEADER);
    HexRoundTrip(c.mac(key, body));
  }

  lemma FlattenOne(body: Bytes)
    ensures Flatten([body]) == body
  {
    assert [body][..0] == [];
  }

  lemma EncryptionUndone(c: Crypto, gz: Bytes, aesKey: Bytes, nonce: Bytes, h: Headers)
    requires Lawful(c) && |aesKey| == AES_KEY_BYTES && |nonce| == c.suite.nonceSize && Get(h, CRYPTO_HEADER) != ""
    ensures CryptoStep(c, true, Message(h, Some(Frame(c.suite.wrap(aesKey), nonce, c.suite.seal(aesKey, nonce, gz))))) ==
            Pass(Message(h - {CRYPTO_HEADER}, Some(gz)))
  {
    DecryptEncrypt(c.suite, gz, aesKey, nonce);
  }

  lemma CompressionUndone(c: Crypto, body: Bytes, h: Headers)
    requires Lawful(c) && Get(h, ENCODING_HEADER) == "gzip"
    ensures GzipStep(c, Message(h, Some(c.gzip([body])))) == Pass(Message(h, Some(body)))
  {
    FlattenOne(body);
  }

  /** The server undoes what the agent did, layer by layer. */
  lemma LayersUndone(c: Crypto, body: Bytes, key: string, pub: bool, priv: bool, aesKey: Bytes, nonce: Bytes, localIP: string)
    requires Lawful(c) && |aesKey| == AES_KEY_BYTES && |nonce| == c.suite.nonceSize && (pub ==> priv)
    ensures var sent := Outgoing(c, body, key, pub, aesKey, nonce, localIP);
            var got := Then(CryptoStep(c, priv, sent), n => GzipStep(c, n));
            && got.Pass? && got.m.body == Some(body)
            && Get(got.m.headers, HASH_HEADER) == Get(sent.headers, HASH_HEADER)
  {
    OutgoingHeaders(c, body, key, pub, aesKey, nonce, localIP);
    HeaderNamesDiffer();
    var h := Outgoing(c, body, key, pub, aesKey, nonce, localIP).headers;
    if pub {
      EncryptionUndone(c, c.gzip([body]), aesKey, nonce, h);
      CompressionUndone(c, body, h - {CRYPTO_HEADER});
    } else {
      CompressionUndone(c, body, h);
    }
  }

  /** When the server can decrypt what the agent encrypts, every body reaches the handler byte
      for byte exactly when one side does not sign or both MACs agree, as they do under one
      key; otherwise the answer is 400. */
  lemma DeliveredIff(c: Crypto, body: Bytes, agentKey: string, serverKey: string, pub: bool, priv: bool,
                     aesKey: Bytes, nonce: Bytes, localIP: string)
    requires Lawful(c) && |aesKey| == AES_KEY_BYTES && |nonce| == c.suite.nonceSize && (pub ==> priv)
    ensures var got := ServerChain(c, priv, serverKey, Outgoing(c, body, agentKey, pub, aesKey, nonce, localIP));
            && (got.Pass? <==> agentKey == "" || serverKey == "" || c.mac(agentKey, body) == c.mac(serverKey, body))
            && (got.Pass? ==> got.m.body == Some(body))
            && (got.Reject? ==> got.status == 400)
  {
    LayersUndone(c, body, agentKey, pub, priv, aesKey, nonce, localIP);
    OutgoingHeaders(c, body, agentKey, pub, aesKey, nonce, localIP);
    SignEqual(c, Sign(c, body, agentKey), body, serverKey);
    HexRoundTrip(c.mac(agentKey, body));
  }

  /** Every matched configuration: signing on or off, encryption on or off. */
  lemma MatchedConfigurationDelivers(c: Crypto, body: Bytes, key: string, encrypt: bool, aesKey: Bytes, nonce: Bytes, localIP: string)
    requires Lawful(c) && |aesKey| == AES_KEY_BYTES && |nonce| == c.suite.nonceSize
    ensures var got := ServerChain(c, encrypt, key, Outgoing(c, body, key, encrypt, aesKey, nonce, localIP));
            got.Pass? && got.m.body == Some(body)
  {
    DeliveredIff(c, body, key, key, encrypt, encrypt, aesKey, nonce, localIP);
  }

  // ---- every request, honest or not ----

  ghost predicate IsEnvelopeOf(c: Crypto, e: Bytes, b: Bytes) {
    exists wrapped, nonce, text, key :: Envelops(c.suite, e, wrapped, nonce, text, key, b)
  }

  /** The bytes the crypto layer hands on, None when it refuses. */
  ghost predicate Decoded(c: Crypto, priv: bool, m: Message, b: Option<Bytes>) {
    if priv && Get(m.headers, CRYPTO_HEADER) != "" then m.body.Some? && b.Some? && IsEnvelopeOf(c, m.body.value, b.value)
    else b == m.body
  }

  /** The bytes the gzip layer hands on; a stream that breaks off is an unreadable body. */
  predicate Inflated(c: Crypto, h: Headers, b: Option<Bytes>, d: Option<Bytes>) {
    if Get(h, ENCODING_HEADER) != "gzip" then d == b
    else b.Some? && match c.gunzip(b.value)
         case BadHeader => false
         case BadStream => d == None
         case Plain(p) => d == Some(p)
  }

  /** No signing, no signature, or the MAC of the body under the server's key in hex. */
  predicate SignatureHolds(c: Crypto, key: string, h: Headers, d: Option<Bytes>) {
    key == "" || (d.Some? && (Get(h, HASH_HEADER) == "" || HexDecode(Get(h, HASH_HEADER)) == Some(c.mac(key, d.value))))
  }

  lemma CryptoStepIff(c: Crypto, priv: bool, m: Message)
    ensures var r := CryptoStep(c, priv, m);
            && (r.Pass? ==> Decoded(c, priv, m, r.m.body)
                            && forall name :: name != CRYPTO_HEADER ==> Get(r.m.headers, name) == Get(m.headers, name))
            && (r.Reject? ==> r.status == 400 && forall b :: !Decoded(c, priv, m, b))
    ensures forall a, b :: Decoded(c, priv, m, a) && Decoded(c, priv, m, b) ==> a == b
  {
    if m.body.Some? {
      var e := m.body.value;
      forall b ensures IsEnvelopeOf(c, e, b) <==> Decrypted(c.suite, e) == Ok(b) {
        DecryptsIff(c.suite, e, b);
      }
    }
  }

  /** A request marked as encrypted whose body is no envelope under the server's key, or cannot
      be read, is answered 400, whatever else it carries. */
  lemma ForgedEnvelopeIsRefused(c: Crypto, key: string, m: Message)
    requires Get(m.headers, CRYPTO_HEADER) != ""
    requires m.body.None? || forall b :: !IsEnvelopeOf(c, m.body.value, b)
    ensures ServerChain(c, true, key, m) == Reject(400)
  {
    CryptoStepIff(c, true, m);
  }

  /** For every request: it reaches the handler with body `d` iff the layers decode to `d` and
      the signature holds. Nothing else is answered with anything but 400, or 500 for a body
      that breaks off under a server that signs. */
  lemma ServedIff(c: Crypto, priv: bool, key: string, m: Message, d: Option<Bytes>)
    ensures var r := ServerChain(c, priv, key, m);
            && (r.Pass? && r.m.body == d <==>
                (exists b :: Decoded(c, priv, m, b) && Inflated(c, m.headers, b, d)) && SignatureHolds(c, key, m.headers, d))
            && (r.Reject? ==> r.status == 400 || (r.status == 500 && key != ""))
            && (r == Reject(500) ==> exists b :: Decoded(c, priv, m, b) && Inflated(c, m.headers, b, None))
  {
    HeaderNamesDiffer();
    CryptoStepIff(c, priv, m);
    var first := CryptoStep(c, priv, m);
    if first.Pass? {
      var second := GzipStep(c, first.m);
      assert Get(first.m.headers, ENCODING_HEADER) == Get(m.headers, ENCODING_HEADER);
      assert Get(first.m.headers, HASH_HEADER) == Get(m.headers, HASH_HEADER);
      if second.Pass? {
        assert Inflated(c, m.headers, first.m.body, second.m.body);
        if second.m.body.Some? {
          SignEqual(c, Get(m.headers, HASH_HEADER), second.m.body.value, key);
        }
      }
    }
  }

  /** The laws asked of the primitives can be met together. */
  lemma LawfulExists() returns (c: Crypto)
    ensures Lawful(c)
  {
    var suite := Suite((b: Bytes) => b, (b: Bytes) => Some(b), 12,
                       (k: Bytes, n: Bytes, t: Bytes) => t, (k: Bytes, n: Bytes, t: Bytes) => Some(t));
    var zeros: Bytes := seq(32, _ => 0);
    c := Crypto(suite, Flatten, (b: Bytes) => Plain(b), (k: string, b: Bytes) => zeros);
  }

  // ---- responses ----

  datatype Sent = NotYet | Sent(status: nat, headers: Headers)

  /** Statuses net/http sends ahead of the response proper. */
  predicate Informational(status: nat) {
    100 <= status < 200 && status != 101
  }

  /** Statuses with which net/http sends a body. */
  predicate BodyAllowed(status: nat) {
    !(100 <= status < 200) && status != 204 && status != 304
  }

  /** The status a response ends up with when a handler asks for `status` and then writes. */
  function FinalStatus(status: nat): nat {
    if Informational(status) then 200 else status
  }

  /** net/http's writer: headers are fixed by the first WriteHeader that is not informational,
      or by the first Write; a body the status does not allow is dropped. */
  class ResponseWriter {
    var headers: Headers
    var sent: Sent
    var body: Bytes

    constructor ()
      ensures headers == map[] && sent == NotYet && body == []
    {
      headers, sent, body := map[], NotYet, [];
    }

    method WriteHeader(status: nat)
      modifies this`sent
      ensures sent == if old(sent).NotYet? && !Informational(status) then Sent(status, headers) else old(sent)
    {
      if sent.NotYet? && !Informational(status) {
        sent := Sent(status, headers);
      }
    }

    method Write(b: Bytes)
      modifies this`sent, this`body
      ensures sent == if old(sent).NotYet? then Sent(200, headers) else old(sent)
      ensures body == old(body) + (if BodyAllowed(sent.status) then b else [])
    {
      WriteHeader(200);
      if BodyAllowed(sent.status) {
        body := body + b;
      }
    }
  }

  /** gzipResponseWriter over a gzip stream that reaches the connection when closed. */
  class GzipResponseWriter {
    const under: ResponseWriter
    var chunks: seq<Bytes>

    constructor (under: ResponseWriter)
      ensures this.under == under && chunks == []
    {
      this.under := under;
      chunks := [];
    }

    method WriteHeader(status: nat)
      modifies under`sent
      ensures under.sent == if old(under.sent).NotYet? && !Informational(status) then Sent(status, under.headers)
                            else old(under.sent)
    {
      under.WriteHeader(status);
    }

    method Write(b: Bytes)
      modifies this, under`sent
      ensures chunks == old(chunks) + [b]
      ensures under.sent == if old(under.sent).NotYet? then Sent(200, under.headers) else old(under.sent)
    {
      under.WriteHeader(200);
      chunks := chunks + [b];
    }

    method Close(c: Crypto)
      modifies under`sent, under`body
      ensures under.sent == if old(under.sent).NotYet? then Sent(200, under.headers) else old(under.sent)
      ensures under.body == old(under.body) + (if BodyAllowed(under.sent.status) then c.gzip(chunks) else [])
    {
      under.Write(c.gzip(chunks));
    }
  }

  /** hashResponseWriter: everything is buffered until the handler has returned. */
  class HashResponseWriter {
    const under: GzipResponseWriter
    var buf: Bytes
    var status: nat

    constructor (under: GzipResponseWriter)
      ensures this.under == under && buf == [] && status == 200
    {
      this.under := under;
      buf, status := [], 200;
    }

    method WriteHeader(status: nat)
      modifies this`status
      ensures this.status == status
    {
      this.status := status;
    }

    method Write(b: Bytes)
      modifies this`buf
      ensures buf == old(buf) + b
    {
      buf := buf + b;
    }

    method Flush(c: Crypto, key: string)
      modifies under, under.under
      ensures under.under.headers ==
              if key != "" then old(under.under.headers)[HASH_HEADER := Sign(c, buf, key)] else old(under.under.headers)
      ensures under.under.sent == if old(under.under.sent).NotYet?
                                  then Sent(if status != 0 then FinalStatus(status) else 200, under.under.headers)
                                  else old(under.under.sent)
      ensures under.chunks == old(under.chunks) + [buf] && under.under.body == old(under.under.body)
    {
      if key != "" {
        under.under.headers := under.under.headers[HASH_HEADER := Sign(c, buf, key)];
      }
      if status != 0 {
        under.WriteHeader(status);
      }
      under.Write(buf);
    }
  }

  /** What a handler does to its writer. */
  datatype Op = SetHeader(name: string, value: string) | Status(code: nat) | Put(b: Bytes)

  function Written(ops: seq<Op>): Bytes {
    if ops == [] then []
    else Written(ops[..|ops| - 1]) + (if ops[|ops| - 1].Put? then ops[|ops| - 1].b else [])
  }

  function LastStatus(ops: seq<Op>): nat {
    if ops == [] then 200
    else if ops[|ops| - 1].Status? then ops[|ops| - 1].code
    else LastStatus(ops[..|ops| - 1])
  }

  predicate OrdinaryOp(op: Op) {
    && (op.SetHeader? ==> op.name != ENCODING_HEADER)
    && (op.Status? ==> 100 <= op.code <= 999)
  }

  /** A handler's run against the buffering writer: nothing is sent yet. */
  method RunHandler(hrw: HashResponseWriter, ops: seq<Op>)
    requires hrw.buf == [] && hrw.status == 200
    requires Get(hrw.under.under.headers, ENCODING_HEADER) == "gzip"
    requires forall i :: 0 <= i < |ops| ==> OrdinaryOp(ops[i])
    modifies hrw`buf, hrw`status, hrw.under.under`headers
    ensures hrw.buf == Written(ops) && hrw.status == LastStatus(ops) && hrw.status >= 100
    ensures Get(hrw.under.under.headers, ENCODING_HEADER) == "gzip"
  {
    var w := hrw.under.under;
    for i := 0 to |ops|
      invariant hrw.buf == Written(ops[..i]) && hrw.status == LastStatus(ops[..i]) && hrw.status >= 100
      invariant Get(w.headers, ENCODING_HEADER) == "gzip"
    {
      assert OrdinaryOp(ops[i]);
      assert ops[..i + 1][..i] == ops[..i];
      match ops[i] {
        case SetHeader(name, value) => w.headers := w.headers[name := value];
        case Status(code) => hrw.WriteHeader(code);
        case Put(b) => hrw.Write(b);
      }
    }
    assert ops[..|ops|] == ops;
  }

  /** GzipMiddleware around HashMiddleware around a handler, for a client that accepts gzip:
      however the handler interleaves headers, statuses and writes, the signature sent is that
      of all it wrote and the headers say gzip; unzipping the body gives all it wrote, or there
      is no body when the status allows none. */
  method Respond(c: Crypto, key: string, ops: seq<Op>) returns (w: ResponseWriter)
    requires Lawful(c) && key != "" && forall i :: 0 <= i < |ops| ==> OrdinaryOp(ops[i])
    ensures w.sent.Sent? && w.sent.status == FinalStatus(LastStatus(ops))
    ensures Get(w.sent.headers, HASH_HEADER) == Sign(c, Written(ops), key)
    ensures Get(w.sent.headers, ENCODING_HEADER) == "gzip"
    ensures if BodyAllowed(w.sent.status) then c.gunzip(w.body) == Plain(Written(ops)) else w.body == []
  {
    w := new ResponseWriter();
    var grw := new GzipResponseWriter(w);
    w.headers := w.headers[ENCODING_HEADER := "gzip"] - {"Content-Length"};
    var hrw := new HashResponseWriter(grw);
    RunHandler(hrw, ops);
    hrw.Flush(c, key);
    grw.Close(c);
    FlattenOne(Written(ops));
    assert [] + [Written(ops)] == [Written(ops)];
    assert BodyAllowed(w.sent.status) ==> w.body == c.gzip([Written(ops)]);
  }
}
