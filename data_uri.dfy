/**
 * The `data:` URIs (RFC 2397) that carry profile pictures: the scraper reads
 * one from the page's `img` element and keeps the base64 payload; the
 * Windows deployment builds one to embed an image in its JSON reply.
 */
module DataUri {
  import opened Wrappers
  import opened Text
  import opened Base64

  /** What the scraper waits for the `src` attribute to start with. */
  const DataImagePrefix: string := "data:image"
  /** The header `image_to_base64` puts in front of the base64 text. */
  const JpegHeader: string := "data:image/jpeg;base64"

  /**
   * `src.split(",")[1]`: the text between the first comma and the next one
   * (or the end); `None` where Python raises `IndexError` (no comma at all).
   */
  function Payload(src: string): (r: Option<string>)
    ensures r.Some? <==> ',' in src
    ensures r.Some? ==> ',' !in r.value
  {
    CountOccurs(src, ',');
    var fields := SplitOn(src, ',');
    if |fields| >= 2 then Some(fields[1]) else None
  }

  /**
   * The bytes `process_and_save_image` would write: the decoded payload, or
   * `None` where it fails. A URI without a comma never decodes, and the bytes
   * are three for every four payload characters, less the padding.
   */
  function DecodeDataUri(src: string): (r: Option<Bytes>)
    ensures r.Some? ==> ',' in src && Payload(src).Some?
    ensures r.Some? ==> |Payload(src).value| % 4 == 0
    ensures r.Some? ==> |Payload(src).value| / 4 * 3 - 2 <= |r.value| <= |Payload(src).value| / 4 * 3
  {
    match Payload(src)
    case None => None
    case Some(p) =>
      if Decode(p).Some? then DecodeLength(p); Decode(p) else None
  }

  /**
   * `image_to_base64`: the JPEG data URI of a file's bytes, or `None`
   * when the file cannot be read (given here as `None` for the content).
   */
  function ImageToBase64(file: Option<Bytes>): (r: Option<string>)
    ensures r.Some? <==> file.Some?
    ensures r.Some? ==> StartsWith(r.value, DataImagePrefix)
    ensures r.Some? ==> DecodeDataUri(r.value) == file
    ensures r.Some? ==> StartsWith(r.value, JpegHeader + ",") && Payload(r.value) == Some(Encode(file.value))
    ensures r.Some? ==> |r.value| == |JpegHeader| + 1 + |Encode(file.value)|
  {
    match file
    case None => None
    case Some(b) =>
      PayloadRoundTrip(b);
      Some(JpegHeader + "," + Encode(b))
  }

  /** Decoding a JPEG data URI built from `b` gives back `b`. */
  lemma PayloadRoundTrip(b: Bytes)
    ensures StartsWith(JpegHeader + "," + Encode(b), DataImagePrefix)
    ensures StartsWith(JpegHeader + "," + Encode(b), JpegHeader + ",")
    ensures Payload(JpegHeader + "," + Encode(b)) == Some(Encode(b))
    ensures DecodeDataUri(JpegHeader + "," + Encode(b)) == Some(b)
  {
    var uri := JpegHeader + "," + Encode(b);
    assert uri[..|DataImagePrefix|] == DataImagePrefix;
    assert ',' !in JpegHeader;
    assert uri == JpegHeader + [','] + Encode(b);
    SplitAfterField(JpegHeader, Encode(b), ',');
    SplitWithoutSeparator(Encode(b), ',');
    DecodeEncode(b);
  }

  /**
   * Whatever the media type in front of the comma, the scraper saves
   * exactly the bytes the URI embeds.
   */
  lemma AnyHeaderRoundTrip(header: string, b: Bytes)
    requires ',' !in header
    ensures DecodeDataUri(header + [','] + Encode(b)) == Some(b)
  {
    PayloadIsSecondField(header, Encode(b), "");
    DecodeEncode(b);
  }

  /** Only the second comma-separated field is decoded: a further comma cuts the payload short. */
  lemma {:induction false} PayloadIsSecondField(header: string, p: string, rest: string)
    requires ',' !in header && ',' !in p
    ensures Payload(header + [','] + p) == Some(p)
    ensures Payload(header + [','] + p + [','] + rest) == Some(p)
  {
    SplitAfterField(header, p, ',');
    SplitWithoutSeparator(p, ',');
    assert header + [','] + p + [','] + rest == header + [','] + (p + [','] + rest);
    SplitAfterField(header, p + [','] + rest, ',');
    SplitAfterField(p, rest, ',');
  }
}
