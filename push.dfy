/** The web-push sender's key handling and reply classification: the VAPID public key must be
    an uncompressed P-256 point (section 3.2 of RFC 8292), whose coordinates and the normalised
    private key make up the signing JWK; a push reply is classified by its status. */
module Push {
  import opened Wrappers
  import opened Base64Url

  /** The `x` and `y` members `parsePublicKey` returns. */
  datatype Coordinates = Coordinates(x: string, y: string)

  /** The key fields of the JWK handed to the signer (`kty` and `crv` are constants). */
  datatype Jwk = Jwk(x: string, y: string, d: string)

  /** `PushSendResult`. */
  datatype PushSendResult = PushSendResult(ok: bool, status: int, expired: bool)

  const UNCOMPRESSED_POINT_LENGTH := 65
  const UNCOMPRESSED_POINT_PREFIX := 0x04
  const COORDINATE_LENGTH := 32

  /** This model's own label for the `DOMException` that `atob` throws on an undecodable key;
      the source has no message of its own for it. */
  const INVALID_BASE64 := "invalid base64"
  const NOT_UNCOMPRESSED_POINT := "VAPID public key must be uncompressed 65-byte EC point"

  /** A point encoding `0x04 || x || y` with 32-byte coordinates. */
  predicate IsUncompressedPoint(raw: seq<byte>) {
    |raw| == UNCOMPRESSED_POINT_LENGTH && raw[0] == UNCOMPRESSED_POINT_PREFIX
  }

  /** `parsePublicKey`: decodes the key (a decoding failure throws from `atob`), refuses anything
      but a 65-byte point starting with `0x04`, and re-encodes bytes 1-32 and 33-64 as the two
      coordinates. */
  function ParsePublicKey(publicKey: string): (r: Result<Coordinates>)
    ensures r.Success? <==> UrlDecode(publicKey).Some? && IsUncompressedPoint(UrlDecode(publicKey).value)
    ensures UrlDecode(publicKey).None? ==> r == Failure(INVALID_BASE64)
    ensures UrlDecode(publicKey).Some? && !IsUncompressedPoint(UrlDecode(publicKey).value) ==>
      r == Failure(NOT_UNCOMPRESSED_POINT)
  {
    match UrlDecode(publicKey)
    case None => Failure(INVALID_BASE64)
    case Some(raw) =>
      if |raw| != UNCOMPRESSED_POINT_LENGTH || raw[0] != UNCOMPRESSED_POINT_PREFIX then
        Failure(NOT_UNCOMPRESSED_POINT)
      else
        Success(Coordinates(UrlEncode(raw[1..33]), UrlEncode(raw[33..65])))
  }

  /** The coordinates of an accepted key are the two 32-byte halves after the prefix, each as 43
      base64url characters: `0x04 || x || y` gives the decoded key back. */
  lemma ParseSplitsPoint(publicKey: string)
    requires ParsePublicKey(publicKey).Success?
    ensures var raw, xy := UrlDecode(publicKey).value, ParsePublicKey(publicKey).value;
      && UrlDecode(xy.x).Some? && UrlDecode(xy.y).Some?
      && |UrlDecode(xy.x).value| == COORDINATE_LENGTH && |UrlDecode(xy.y).value| == COORDINATE_LENGTH
      && [UNCOMPRESSED_POINT_PREFIX] + UrlDecode(xy.x).value + UrlDecode(xy.y).value == raw
      && |xy.x| == 43 && |xy.y| == 43
  {
    var raw := UrlDecode(publicKey).value;
    assert ParsePublicKey(publicKey).value == Coordinates(UrlEncode(raw[1..33]), UrlEncode(raw[33..65]));
    SplitPoint(raw);
  }

  lemma SplitPoint(raw: seq<byte>)
    requires IsUncompressedPoint(raw)
    ensures var x, y := UrlEncode(raw[1..33]), UrlEncode(raw[33..65]);
      && UrlDecode(x) == Some(raw[1..33]) && UrlDecode(y) == Some(raw[33..65])
      && [UNCOMPRESSED_POINT_PREFIX] + raw[1..33] + raw[33..65] == raw
      && |x| == 43 && |y| == 43
  {
    CoordinateEncoding(raw[1..33]);
    CoordinateEncoding(raw[33..65]);
    PointHalves(raw);
  }

  /** A point is its prefix byte followed by its two halves. */
  lemma PointHalves(raw: seq<byte>)
    requires IsUncompressedPoint(raw)
    ensures [UNCOMPRESSED_POINT_PREFIX] + raw[1..33] + raw[33..65] == raw
  {
    assert raw[1..] == raw[1..33] + raw[33..65];
    assert raw == [raw[0]] + raw[1..];
  }

  /** A 32-byte coordinate is written as 43 characters and decodes back. */
  lemma CoordinateEncoding(c: seq<byte>)
    requires |c| == COORDINATE_LENGTH
    ensures UrlDecode(UrlEncode(c)) == Some(c) && |UrlEncode(c)| == 43
  {
    UrlRoundTrip(c);
  }

  /** `toBase64Url(fromBase64Url(privateKey))`: the private key in the encoder's own form;
      `None` where decoding throws. */
  function NormalisePrivateKey(privateKey: string): (d: Option<string>)
    ensures d.Some? <==> UrlDecode(privateKey).Some?
    ensures d.Some? ==> UrlDecode(d.value) == UrlDecode(privateKey)
  {
    match UrlDecode(privateKey)
    case None => None
    case Some(bytes) => UrlRoundTrip(bytes); Some(UrlEncode(bytes))
  }

  /** `createVapidJwt`'s key material: the coordinates of the public key and the normalised
      private key, or the first exception. */
  function VapidJwk(publicKey: string, privateKey: string): (r: Result<Jwk>)
    ensures r.Success? <==> ParsePublicKey(publicKey).Success? && NormalisePrivateKey(privateKey).Some?
    ensures ParsePublicKey(publicKey).Failure? ==> r == Failure(ParsePublicKey(publicKey).error)
    ensures r.Success? ==>
      && r.value.x == ParsePublicKey(publicKey).value.x && r.value.y == ParsePublicKey(publicKey).value.y
      && UrlDecode(r.value.d) == UrlDecode(privateKey)
  {
    match ParsePublicKey(publicKey)
    case Failure(e) => Failure(e)
    case Success(xy) =>
      match NormalisePrivateKey(privateKey)
      case None => Failure(INVALID_BASE64)
      case Some(d) => Success(Jwk(xy.x, xy.y, d))
  }

  /** The result `sendWebPush` builds from the push service's reply: `ok` is the Fetch
      standard's status in 200-299, `expired` marks a gone subscription (404 or 410). */
  function ClassifyReply(status: int): (r: PushSendResult)
    ensures r.status == status
    ensures r.ok <==> 200 <= status <= 299
    ensures r.expired <==> status == 404 || status == 410
    ensures r.expired ==> !r.ok
  {
    PushSendResult(200 <= status <= 299, status, status == 404 || status == 410)
  }

  // ---------------------------------------------------------------------------------------
  // Properties

  /** Every uncompressed point is accepted, and its coordinates are the encoder's output for
      its two halves. */
  lemma ParseAcceptsEveryPoint(raw: seq<byte>)
    requires IsUncompressedPoint(raw)
    ensures ParsePublicKey(UrlEncode(raw)) == Success(Coordinates(UrlEncode(raw[1..33]), UrlEncode(raw[33..65])))
  {
    UrlRoundTrip(raw);
  }

  /** A canonical private key is passed on unchanged, and normalising twice is normalising once. */
  lemma NormaliseKeepsCanonical(bytes: seq<byte>, privateKey: string)
    ensures NormalisePrivateKey(UrlEncode(bytes)) == Some(UrlEncode(bytes))
    ensures NormalisePrivateKey(privateKey).Some? ==>
      NormalisePrivateKey(NormalisePrivateKey(privateKey).value) == NormalisePrivateKey(privateKey)
  {
    UrlRoundTrip(bytes);
    if UrlDecode(privateKey).Some? {
      UrlRoundTrip(UrlDecode(privateKey).value);
    }
  }

  /** A key of the wrong length is refused, whatever its first byte. */
  lemma ParseRefusesWrongLength(raw: seq<byte>)
    requires |raw| != UNCOMPRESSED_POINT_LENGTH
    ensures ParsePublicKey(UrlEncode(raw)) == Failure(NOT_UNCOMPRESSED_POINT)
  {
    UrlRoundTrip(raw);
  }
}
