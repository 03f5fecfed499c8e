/**
 * Base64 image payloads as the service receives and returns them: either a
 * plain base64 string or a data URL `data:image/<format>;base64,<payload>`.
 */
module ImageIO {
  import opened Wrappers
  import opened Strings
  import Base64

  type uint8 = Base64.uint8

  /** The `ValueError` raised when the payload is not base64. */
  datatype ImageError = ValueError

  /**
   * The part of the input that is decoded: the text between the first and
   * the second comma when there is a comma (the data-URL header comes
   * before the first one), the whole input otherwise.
   */
  function Payload(s: string): (p: string)
    ensures ',' !in p
  {
    if ',' in s then Split(s, ',')[1] else s
  }

  /** `decode_image(s)`: the bytes of the payload, or `ValueError` and no bytes at all. */
  function DecodeImage(s: string): Result<seq<uint8>, ImageError> {
    match Base64.Decode(Strip(Payload(s)))
    case Some(bytes) => Ok(bytes)
    case None => Err(ValueError)
  }

  /** The header of the data URL that `encode_image_to_base64` builds, up to its only comma. */
  function DataUrlHeader(format: string): string {
    "data:image/" + Lower(format) + ";base64"
  }

  /** The default `format` argument of `encode_image_to_base64`. */
  const DefaultFormat: string := "PNG"

  /**
   * `encode_image_to_base64(b, format)`: a data URL with media type
   * `image/<format in lower case>` carrying the base64 encoding of `b`;
   * it splits at its one comma into exactly the header and the payload.
   */
  function EncodeImageToBase64(b: seq<uint8>, format: string): (url: string)
    ensures ',' !in format ==> Split(url, ',') == [DataUrlHeader(format), Base64.Encode(b)]
  {
    var url := DataUrlHeader(format) + "," + Base64.Encode(b);
    if ',' !in format then
      HeaderHasNoComma(format);
      Base64.EncodeHasNoSeparator(b);
      SplitInTwo(DataUrlHeader(format), Base64.Encode(b));
      url
    else url
  }

  lemma HeaderHasNoComma(format: string)
    requires ',' !in format
    ensures ',' !in DataUrlHeader(format)
  {
    LowerKeepsNonLetter(format, ',');
  }

  lemma SplitInTwo(p: string, q: string)
    requires ',' !in p && ',' !in q
    ensures Split(p + "," + q, ',') == [p, q]
  {
    var s := p + "," + q;
    assert s[..|p|] == p && s[|p|] == ',' && s[|p| + 1..] == q;
    SplitAtFirst(s, ',', |p|);
  }

  /** A base64 encoding has no white space at its ends, so `strip()` leaves it alone. */
  lemma StripEncoding(b: seq<uint8>)
    ensures Strip(Base64.Encode(b)) == Base64.Encode(b)
  {
    StripTrimmed(Base64.Encode(b));
  }

  // ---------------------------------------------------------------------------
  // What decode_image accepts
  // ---------------------------------------------------------------------------

  /**
   * `decode_image(s)` returns `b` exactly when the stripped payload of `s`
   * is the base64 encoding of `b`, and raises `ValueError` exactly when it
   * is the encoding of no byte string.
   */
  lemma DecodeImageSpec(s: string, b: seq<uint8>)
    ensures DecodeImage(s) == Ok(b) <==> Strip(Payload(s)) == Base64.Encode(b)
    ensures DecodeImage(s) == Err(ValueError) <==>
      forall b' :: Base64.Encode(b') != Strip(Payload(s))
  {
    var t := Strip(Payload(s));
    Base64.DecodeIffEncode(t, b);
    if DecodeImage(s).Ok? {
      Base64.EncodeDecode(t, DecodeImage(s).value);
    }
    forall b' | Base64.Encode(b') == t ensures DecodeImage(s).Ok? {
      Base64.DecodeEncode(b');
    }
  }

  /** Input without a comma is plain base64: it decodes to `b` exactly when, stripped, it is the encoding of `b`. */
  lemma DecodePlain(s: string, b: seq<uint8>)
    requires ',' !in s
    ensures DecodeImage(s) == Ok(b) <==> Strip(s) == Base64.Encode(b)
  {
    DecodeImageSpec(s, b);
  }

  /**
   * With a comma, only the text between the first and the second comma is
   * decoded: the header before the first comma and anything from a second
   * comma on play no part.
   */
  lemma DecodeSecondField(header: string, field: string, rest: string)
    requires ',' !in header && ',' !in field
    requires rest == [] || rest[0] == ','
    ensures DecodeImage(header + "," + field + rest) == DecodeImage(field)
  {
    SplitSecondPiece(header, field, rest, ',');
    assert header + "," + field + rest == header + [','] + field + rest;
  }

  lemma SpaceHasNoComma(w: string)
    requires AllSpace(w)
    ensures ',' !in w
  {
    forall i | 0 <= i < |w| ensures w[i] != ',' {
      assert IsSpace(w[i]);
    }
  }

  /** White space around a plain payload does not change what is decoded. */
  lemma DecodeIgnoresSurroundingSpace(w1: string, x: string, w2: string)
    requires AllSpace(w1) && AllSpace(w2) && ',' !in x
    ensures DecodeImage(w1 + x + w2) == DecodeImage(x)
  {
    SpaceHasNoComma(w1);
    SpaceHasNoComma(w2);
    assert ',' !in w1 + x + w2;
    StripIgnoresSurroundingSpace(w1, x, w2);
  }

  // ---------------------------------------------------------------------------
  // Round trip
  // ---------------------------------------------------------------------------

  /** Decoding a data URL built by `encode_image_to_base64` gives back the image bytes. */
  lemma RoundTrip(b: seq<uint8>, format: string)
    requires ',' !in format
    ensures DecodeImage(EncodeImageToBase64(b, format)) == Ok(b)
  {
    var url := EncodeImageToBase64(b, format);
    assert Payload(url) == Base64.Encode(b);
    StripEncoding(b);
    Base64.DecodeEncode(b);
  }

  /** With the default format the media type is `image/png`. */
  lemma DefaultFormatIsPng(b: seq<uint8>)
    ensures EncodeImageToBase64(b, DefaultFormat) == "data:image/png;base64," + Base64.Encode(b)
  {
    assert Lower(DefaultFormat) == "png";
  }
}
