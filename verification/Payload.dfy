/**
 The register payload: base64(IV || AES-CBC-PKCS7(base64(json))). The device builds it and the admin
 service takes it apart; the two are separate programs that have to agree.
 */
module Payload {
  import opened Wrappers
  import opened AesCbc
  import Base64

  datatype PayloadError = BadOuterText | BadWire(why: CryptoError) | BadInnerText

  /** On the device. `iv` is what the random source gave, None if it failed. */
  function BuildRegisterPlayloadB64(c: Primitives, key: Bytes, iv: Option<Bytes>, json: Bytes): (r: Result<Bytes, CryptoError>)
    requires Sound(c) && (iv.Some? ==> |iv.value| == BLOCK_SIZE)
  {
    if iv == None then Err(NoRandomness) else Ok(Base64.Encode(Seal(c, key, iv.value, Base64.Encode(json))))
  }

  /** On the admin service. */
  function DecryptPayload(c: Primitives, key: Bytes, text: Bytes): (r: Result<Bytes, PayloadError>)
    requires Sound(c)
  {
    match Base64.Decode(text)
    case None => Err(BadOuterText)
    case Some(wire) =>
      match Open(c, key, wire)
      case Err(why) => Err(BadWire(why))
      case Ok(plain) =>
        match Base64.Decode(plain)
        case None => Err(BadInnerText)
        case Some(json) => Ok(json)
  }

  /** For every key of any length, every initial vector and every byte string, what was built is read back. */
  lemma PayloadRoundTrip(c: Primitives, key: Bytes, iv: Bytes, json: Bytes)
    requires Sound(c) && |iv| == BLOCK_SIZE
    ensures var built := BuildRegisterPlayloadB64(c, key, Some(iv), json);
            built.Ok? && DecryptPayload(c, key, built.value) == Ok(json)
  {
    var wire := Seal(c, key, iv, Base64.Encode(json));
    Base64.DecodeEncode(wire);
    Base64.DecodeEncode(json);
    assert wire[..BLOCK_SIZE] == iv;
    OpenExact(c, key, wire, Base64.Encode(json));
  }

  /** What is accepted, exactly: two layers of base64 with a sealed text between them. */
  lemma AcceptedIff(c: Primitives, key: Bytes, text: Bytes, json: Bytes)
    requires Sound(c)
    ensures DecryptPayload(c, key, text) == Ok(json) <==>
            exists iv, inner ::
              |iv| == BLOCK_SIZE && Base64.Decode(text) == Some(Seal(c, key, iv, inner)) && Base64.Decode(inner) == Some(json)
  {
    if DecryptPayload(c, key, text) == Ok(json) { var iv, inner := AcceptedIsBuilt(c, key, text, json); }
    forall iv, inner | |iv| == BLOCK_SIZE && Base64.Decode(text) == Some(Seal(c, key, iv, inner)) && Base64.Decode(inner) == Some(json)
      ensures DecryptPayload(c, key, text) == Ok(json)
    {
      var wire := Seal(c, key, iv, inner);
      assert wire[..BLOCK_SIZE] == iv;
      OpenExact(c, key, wire, inner);
    }
  }

  /**
   Conversely, a payload is accepted only if it is the sealed form, under this key, of a text for the
   result; and it is exactly what the device would have built, with the same initial vector, if and only if
   both layers of base64 are canonical.
   */
  lemma AcceptedIsBuilt(c: Primitives, key: Bytes, text: Bytes, json: Bytes) returns (iv: Bytes, inner: Bytes)
    requires Sound(c) && DecryptPayload(c, key, text) == Ok(json)
    ensures |iv| == BLOCK_SIZE && Base64.Decode(inner) == Some(json)
    ensures Base64.Decode(text) == Some(Seal(c, key, iv, inner))
    ensures BuildRegisterPlayloadB64(c, key, Some(iv), json) == Ok(text) <==>
            Base64.Canonical(text) && Base64.Canonical(inner)
  {
    var wire := Base64.Decode(text).value;
    inner := Open(c, key, wire).value;
    iv := wire[..BLOCK_SIZE];
    OpenExact(c, key, wire, inner);
    Base64.EncodeDecodeIff(text);
    Base64.EncodeDecodeIff(inner);
    if BuildRegisterPlayloadB64(c, key, Some(iv), json) == Ok(text) {
      var wire' := Seal(c, key, iv, Base64.Encode(json));
      Base64.DecodeEncode(wire');
      assert wire'[..BLOCK_SIZE] == iv;
      OpenExact(c, key, wire', Base64.Encode(json));
    }
  }
}
