/** The content-coding tokens the middleware knows and the codecs behind them. */
module Encoding {
  import opened Wrappers

  const Gzip: string := "gzip"
  const Deflate: string := "deflate"
  const Brotli: string := "br"

  /** The closed set of supported tokens. */
  const SupportedTokens: set<string> := {Gzip, Deflate, Brotli}

  /** Token validity: a case-sensitive membership test against the three tokens. */
  function IsValid(t: string): (valid: bool)
    ensures valid <==> t in SupportedTokens
  {
    match t
    case "gzip" => true
    case "deflate" => true
    case "br" => true
    case _ => false
  }

  /** The codec families: gzip, zlib (for "deflate") and brotli. */
  datatype Codec = GzipCodec | DeflateCodec | BrotliCodec

  /** The token a codec is advertised under. */
  function Token(c: Codec): string {
    match c
    case GzipCodec => Gzip
    case DeflateCodec => Deflate
    case BrotliCodec => Brotli
  }

  /** The codec behind a token: present exactly for valid tokens. */
  function CodecOf(t: string): (c: Option<Codec>)
    ensures c.Some? <==> IsValid(t)
    ensures c.Some? ==> Token(c.value) == t
  {
    if t == Gzip then Some(GzipCodec)
    else if t == Deflate then Some(DeflateCodec)
    else if t == Brotli then Some(BrotliCodec)
    else None
  }

  /** Token and codec are inverse to each other. */
  lemma TokenCodecRoundTrip(c: Codec)
    ensures IsValid(Token(c))
    ensures CodecOf(Token(c)) == Some(c)
  {
  }

  /**
    File suffixes that mark a stored, already-compressed asset. Deflate has
    no conventional suffix and is not in the table.
  */
  const PrecompressionEncodeMap: map<string, string> := map[".gz" := Gzip, ".br" := Brotli]

  /** Lookup in the precompression table. */
  function PrecompressedEncoding(ext: string): (enc: Option<string>)
    ensures enc.Some? <==> ext == ".gz" || ext == ".br"
    ensures enc.Some? ==> IsValid(enc.value) && enc.value != Deflate
    ensures enc == Some(Gzip) <==> ext == ".gz"
    ensures enc == Some(Brotli) <==> ext == ".br"
  {
    if ext in PrecompressionEncodeMap then Some(PrecompressionEncodeMap[ext]) else None
  }
}
