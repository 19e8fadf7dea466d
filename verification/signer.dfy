/** Request signing: the message the client signs and the authentication
    headers it sends with every request. Base64 decoding of the secret and
    HMAC-SHA256 (RFC 2104) with base64 encoding of the digest (section 4 of
    RFC 4648) are not interpreted: they are the parameters `decodeSecret` and
    `mac`. The wall clock is the parameter `timestamp`, the text of
    `str(time.time())`. */
module Signer {
  import opened Common

  newtype Byte = b: int | 0 <= b < 256

  /** The client's static credentials. */
  datatype Credentials = Credentials(keyId: string, keySecret: string, passphrase: string)

  const KeyHeader := "CB-ACCESS-KEY"
  const SignHeader := "CB-ACCESS-SIGN"
  const TimestampHeader := "CB-ACCESS-TIMESTAMP"
  const PassphraseHeader := "CB-ACCESS-PASSPHRASE"
  const ContentTypeHeader := "Content-Type"
  const ContentType := "Application/JSON"

  /** The body signed when a request has none. */
  const NoBody := ""

  /** The five header names every signed request carries. */
  function HeaderNames(): (names: set<string>)
    ensures |names| == 5
  {
    assert |KeyHeader| == 13 && |SignHeader| == 14 && |TimestampHeader| == 19;
    assert |PassphraseHeader| == 20 && |ContentTypeHeader| == 12;
    {KeyHeader, SignHeader, TimestampHeader, PassphraseHeader, ContentTypeHeader}
  }

  predicate IsAscii(s: string)
  {
    forall i :: 0 <= i < |s| ==> s[i] as int < 128
  }

  /** The byte of an ASCII character. */
  function AsciiByte(c: char): (b: Byte)
    requires c as int < 128
    ensures b as int == c as int
  {
    c as int as Byte
  }

  /** `s.encode('ascii')`: one byte per character, or the UnicodeEncodeError
      Python raises on a character outside ASCII. */
  function AsciiEncode(s: string): (r: Option<seq<Byte>>)
    ensures r.Some? <==> IsAscii(s)
    ensures r.Some? ==> |r.value| == |s| && forall i :: 0 <= i < |s| ==> r.value[i] as int == s[i] as int
  {
    if s == [] then Some([])
    else if s[0] as int >= 128 then None
    else match AsciiEncode(s[1..])
      case None => None
      case Some(rest) => Some([AsciiByte(s[0])] + rest)
  }

  /** The signed message: timestamp, verb, endpoint and body, joined with no
      separator. It starts with the timestamp, ends with the body, and is
      exactly as long as its four parts together. */
  function SignedMessage(timestamp: string, verb: string, endpoint: string, body: string): (m: string)
    ensures timestamp <= m
    ensures |m| == |timestamp| + |verb| + |endpoint| + |body|
    ensures m[|m| - |body|..] == body
  {
    timestamp + verb + endpoint + body
  }

  /** The headers of a signed request, or the error raised while computing
      the signature. The secret is decoded first, then the message encoded.
      A request without a body signs the empty body. */
  function GenerateSignature(creds: Credentials, decodeSecret: string -> Option<seq<Byte>>,
                             mac: (seq<Byte>, seq<Byte>) -> string, timestamp: string,
                             endpoint: string, verb: string, body: string := NoBody): (r: Result<map<string, string>>)
    ensures decodeSecret(creds.keySecret).None? ==> r == Err(SecretDecodeError)
    ensures decodeSecret(creds.keySecret).Some? && !IsAscii(SignedMessage(timestamp, verb, endpoint, body))
            ==> r == Err(UnicodeEncodeError)
    ensures r.Ok? <==> decodeSecret(creds.keySecret).Some? && IsAscii(SignedMessage(timestamp, verb, endpoint, body))
    ensures r.Ok? ==> r.value.Keys == HeaderNames()
    ensures r.Ok? ==> r.value[TimestampHeader] == timestamp
    ensures r.Ok? ==> r.value[KeyHeader] == creds.keyId && r.value[PassphraseHeader] == creds.passphrase
    ensures r.Ok? ==> r.value[ContentTypeHeader] == ContentType
    ensures r.Ok? ==> r.value[SignHeader]
                      == mac(decodeSecret(creds.keySecret).value,
                             AsciiEncode(SignedMessage(timestamp, verb, endpoint, body)).value)
  {
    var message := SignedMessage(timestamp, verb, endpoint, body);
    match decodeSecret(creds.keySecret)
    case None => Err(SecretDecodeError)
    case Some(key) =>
      match AsciiEncode(message)
      case None => Err(UnicodeEncodeError)
      case Some(bytes) =>
        Ok(map[KeyHeader := creds.keyId,
               SignHeader := mac(key, bytes),
               TimestampHeader := timestamp,
               PassphraseHeader := creds.passphrase,
               ContentTypeHeader := ContentType])
  }

  /** Knowing the lengths of its parts, the signed message gives every part back. */
  lemma MessageParts(timestamp: string, verb: string, endpoint: string, body: string)
    ensures var m := SignedMessage(timestamp, verb, endpoint, body);
            var a, b, c := |timestamp|, |timestamp| + |verb|, |timestamp| + |verb| + |endpoint|;
            && m[..a] == timestamp && m[a..b] == verb && m[b..c] == endpoint && m[c..] == body
  {
  }

  /** For a fixed timestamp, verb and endpoint, the message changes exactly
      when the body changes. */
  lemma MessageDistinguishesBodies(timestamp: string, verb: string, endpoint: string, body1: string, body2: string)
    ensures SignedMessage(timestamp, verb, endpoint, body1) == SignedMessage(timestamp, verb, endpoint, body2)
            <==> body1 == body2
  {
    var n := |timestamp| + |verb| + |endpoint|;
    if SignedMessage(timestamp, verb, endpoint, body1) == SignedMessage(timestamp, verb, endpoint, body2) {
      MessageParts(timestamp, verb, endpoint, body1);
      MessageParts(timestamp, verb, endpoint, body2);
    }
  }

  /** Without separators the endpoint and body are not bound apart: moving a
      character from the body to the end of the endpoint signs the same message. */
  lemma EndpointBodyBoundaryUnsigned(timestamp: string, verb: string, endpoint: string, c: char, body: string)
    ensures SignedMessage(timestamp, verb, endpoint, [c] + body)
            == SignedMessage(timestamp, verb, endpoint + [c], body)
  {
  }

  /** The timestamp sent in the header is the prefix of what was signed. */
  lemma SignedTimestampMatchesHeader(creds: Credentials, decodeSecret: string -> Option<seq<Byte>>,
                                     mac: (seq<Byte>, seq<Byte>) -> string, timestamp: string,
                                     endpoint: string, verb: string, body: string)
    requires GenerateSignature(creds, decodeSecret, mac, timestamp, endpoint, verb, body).Ok?
    ensures var headers := GenerateSignature(creds, decodeSecret, mac, timestamp, endpoint, verb, body).value;
            headers[TimestampHeader] <= SignedMessage(timestamp, verb, endpoint, body)
  {
  }

  /** The signing calls of the fills, order-listing and single-order requests
      pass no body: the message is the timestamp, verb and endpoint alone. */
  lemma SignWithoutBody(creds: Credentials, decodeSecret: string -> Option<seq<Byte>>,
                        mac: (seq<Byte>, seq<Byte>) -> string, timestamp: string,
                        endpoint: string, verb: string)
    ensures var r := GenerateSignature(creds, decodeSecret, mac, timestamp, endpoint, verb);
            && (r.Ok? <==> decodeSecret(creds.keySecret).Some? && IsAscii(timestamp + verb + endpoint))
            && (r.Ok? ==> r.value[SignHeader]
                          == mac(decodeSecret(creds.keySecret).value, AsciiEncode(timestamp + verb + endpoint).value))
  {
    assert SignedMessage(timestamp, verb, endpoint, NoBody) == timestamp + verb + endpoint;
  }
}
