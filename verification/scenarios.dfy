/**
  The handler test table restated over the model: a GET request for a file
  that a file server serves by setting Content-Length, sending status 200
  and writing the file's bytes. Stored compressed bytes are opaque, so the
  body checks say where the bytes go, not what a codec makes of them. For
  an encoder or decoder, `calls` holds only the writer's own header send;
  the bytes its codec then writes to the underlying writer are not traced.
*/
module Scenarios {
  import opened Negotiation
  import opened Options
  import opened Selection
  import Wrappers
  import Encoding
  import Paths
  import H = Headers
  import W = Writers

  /** A file server answering with `body`, whose size it announces. */
  function FileServer(size: string, body: seq<W.byte>): seq<W.Op> {
    [W.SetHeader(H.ContentLength, [size]), W.CallWriteHeader(W.StatusOK), W.CallWrite(body)]
  }

  /** The parser's output for tokens that all carry the default weight, in declaration order. */
  function Tokens(ts: seq<string>): (vs: seq<QValue>)
    ensures |vs| == |ts|
    ensures forall i :: 0 <= i < |ts| ==> vs[i] == QValue(ts[i], 1.0)
  {
    if ts == [] then [] else [QValue(ts[0], 1.0)] + Tokens(ts[1..])
  }

  /** Running three calls is stepping through them in order. */
  lemma RunThree(w: W.Writer, a: W.Op, b: W.Op, c: W.Op)
    ensures W.Run(w, [a, b, c]) == W.Step(W.Step(W.Step(w, a), b), c)
  {
    var ops := [a, b, c];
    assert ops[..1][..0] == [] && ops[..1][0] == a;
    assert W.Run(w, ops[..1]) == W.Step(w, a);
    assert ops[..2][..1] == ops[..1] && ops[..2][1] == b;
    assert W.Run(w, ops[..2]) == W.Step(W.Step(w, a), b);
    assert ops[..|ops| - 1] == ops[..2];
  }

  /** Running the file server is: set Content-Length, send the header, write the body. */
  lemma RunFileServer(w: W.Writer, size: string, body: seq<W.byte>)
    ensures W.Run(w, FileServer(size, body))
         == W.Write(W.WriteHeader(w.(header := w.header[H.ContentLength := [size]]), W.StatusOK), body)
  {
    RunThree(w, W.SetHeader(H.ContentLength, [size]), W.CallWriteHeader(W.StatusOK), W.CallWrite(body));
  }

  /** The test files' logical names all have the extension ".txt". */
  lemma ExtOfTestName(name: string)
    requires name == "test1.txt" || name == "test2.txt" || name == "test3.txt"
    ensures Paths.Ext(name) == ".txt"
  {
    var stem := name[..5];
    assert name == stem + ".txt";
    Paths.ExtOfSuffixedName(stem, ".txt");
  }

  /** The stored test assets: "/test1.txt.gz" and "/test2.txt.br" directly under the root. */
  lemma StoredTestPath(urlPath: string, stem: string, suffix: string)
    requires || (urlPath == "/test1.txt.gz" && stem == "test1.txt" && suffix == ".gz")
             || (urlPath == "/test2.txt.br" && stem == "test2.txt" && suffix == ".br")
    ensures urlPath == "" + "/" + stem + suffix && '/' !in stem
  {
  }

  /** The plain test file "/test3.txt": a name directly under the root whose extension marks no encoding. */
  lemma PlainTestPath(urlPath: string, name: string)
    requires urlPath == "/test3.txt" && name == "test3.txt"
    ensures urlPath == "" + "/" + name && name != [] && '/' !in name
    ensures Encoding.PrecompressedEncoding(Paths.Ext(name)).None?
  {
    ExtOfTestName(name);
  }

  /** The overlay writer serving a file sends the overlaid header, then the file's bytes. */
  lemma OverlayServesFile(o: H.Header, h: H.Header, size: string, body: seq<W.byte>)
    ensures W.Run(W.NewWriter(W.Overlayer(o), h), FileServer(size, body)).calls
         == [W.SendHeader(W.StatusOK, H.Overlay(h[H.ContentLength := [size]], o)), W.SendBody(body)]
  {
    RunFileServer(W.NewWriter(W.Overlayer(o), h), size, body);
  }

  /** An encoder or decoder serving a file sends its prepared header and feeds the file's bytes to its codec. */
  lemma CodecServesFile(dec: W.Decorator, h: H.Header, size: string, body: seq<W.byte>)
    requires dec.Transforms()
    ensures W.Run(W.NewWriter(dec, h), FileServer(size, body)).calls
         == [W.SendHeader(W.StatusOK, W.PrepareHeader(dec, h[H.ContentLength := [size]]))]
    ensures W.Run(W.NewWriter(dec, h), FileServer(size, body)).sink == body
  {
    RunFileServer(W.NewWriter(dec, h), size, body);
  }

  /** The original writer serving a file sees the file server's own calls. */
  lemma PassthroughServesFile(h: H.Header, size: string, body: seq<W.byte>)
    ensures W.Run(W.NewWriter(W.Passthrough, h), FileServer(size, body)).calls
         == [W.SendHeader(W.StatusOK, h[H.ContentLength := [size]]), W.SendBody(body)]
  {
    RunFileServer(W.NewWriter(W.Passthrough, h), size, body);
  }

  /** A request that selects `c` runs the file server on the writer `c` wraps. */
  lemma ServeRunsChoice(verb: string, urlPath: string, accept: string, parsed: ParseOutcome,
                        lookup: string -> string, opts: HandlerOptions, h: H.Header, ops: seq<W.Op>, c: Choice)
    requires Select(verb, urlPath, ParseAcceptedEncoding(accept, parsed), lookup) == c
    requires WellFormed(c)
    ensures Serve(verb, urlPath, accept, parsed, lookup, opts, h, ops) == W.Run(Wrap(c, opts, h), ops)
  {
  }

  /** The overlaid header of a stored asset keeps the file's Content-Length next to the overlay. */
  lemma StoredHeader(h: H.Header, size: string, ct: string, enc: string)
    ensures
      var sent := H.Overlay(h[H.ContentLength := [size]], map[H.ContentType := [ct], H.ContentEncoding := [enc]]);
      && H.Get(sent, H.ContentEncoding) == enc
      && H.Get(sent, H.ContentType) == ct
      && H.Get(sent, H.ContentLength) == size
  {
    H.NamesDistinct();
  }

  /**
    A GET for a stored asset whose encoding the client lists runs the file
    server on the overlay writer: the overlaid header, then the stored bytes.
  */
  lemma StoredCalls(urlPath: string, dir: string, stem: string, suffix: string, enc: string,
                    lookup: string -> string, opts: HandlerOptions, h: H.Header,
                    accept: string, order: seq<QValue>, size: string, stored: seq<W.byte>)
    requires urlPath == dir + "/" + stem + suffix
    requires Encoding.PrecompressedEncoding(suffix) == Wrappers.Some(enc) && '/' !in stem
    requires accept != "" && Mentions(order, enc)
    ensures
      var o := map[H.ContentType := [ContentTypeByExtension(Paths.Ext(stem), lookup)], H.ContentEncoding := [enc]];
      Serve("GET", urlPath, accept, Parsed(order), lookup, opts, h, FileServer(size, stored)).calls
        == [W.SendHeader(W.StatusOK, H.Overlay(h[H.ContentLength := [size]], o)), W.SendBody(stored)]
  {
    var o := map[H.ContentType := [ContentTypeByExtension(Paths.Ext(stem), lookup)], H.ContentEncoding := [enc]];
    SelectStored("GET", dir, stem, suffix, enc, order, lookup);
    ServeRunsChoice("GET", urlPath, accept, Parsed(order), lookup, opts, h, FileServer(size, stored), Overlay(o));
    OverlayServesFile(o, h, size, stored);
  }

  /**
    A stored asset requested by a client that lists its encoding, in any
    position and with any weight: the stored bytes go out unchanged with
    that Content-Encoding, the logical content type and the file's own
    Content-Length.
  */
  lemma ServeStored(urlPath: string, dir: string, stem: string, suffix: string, enc: string,
                    lookup: string -> string, opts: HandlerOptions, h: H.Header,
                    accept: string, order: seq<QValue>, size: string, stored: seq<W.byte>)
    requires urlPath == dir + "/" + stem + suffix
    requires Encoding.PrecompressedEncoding(suffix) == Wrappers.Some(enc) && '/' !in stem
    requires accept != "" && Mentions(order, enc)
    ensures
      var ct := ContentTypeByExtension(Paths.Ext(stem), lookup);
      var w := Serve("GET", urlPath, accept, Parsed(order), lookup, opts, h, FileServer(size, stored));
      && |w.calls| == 2
      && w.calls[0].SendHeader? && w.calls[0].status == W.StatusOK
      && H.Get(w.calls[0].header, H.ContentEncoding) == enc
      && H.Get(w.calls[0].header, H.ContentType) == ct
      && H.Get(w.calls[0].header, H.ContentLength) == size
      && w.calls[1] == W.SendBody(stored)
  {
    StoredCalls(urlPath, dir, stem, suffix, enc, lookup, opts, h, accept, order, size, stored);
    StoredHeader(h, size, ContentTypeByExtension(Paths.Ext(stem), lookup), enc);
  }

  /** The decoder's header of a stored asset: the logical content type, no encoding, no length value. */
  lemma DecodedHeader(h: H.Header, size: string, enc: string, ct: string)
    ensures
      var sent := W.PrepareHeader(W.Decoder(enc, map[H.ContentType := [ct]]), h[H.ContentLength := [size]]);
      && H.ContentEncoding !in sent
      && H.Get(sent, H.ContentLength) == ""
      && H.Get(sent, H.ContentType) == ct
  {
    H.NamesDistinct();
  }

  /**
    A stored asset requested by a client that does not list its encoding:
    the header goes out with the logical content type, no Content-Encoding
    and no Content-Length value, and the stored bytes are fed to the
    decoder of their encoding.
  */
  lemma DecodeStored(urlPath: string, dir: string, stem: string, suffix: string, enc: string,
                     lookup: string -> string, opts: HandlerOptions, h: H.Header,
                     accept: string, parsed: ParseOutcome, size: string, stored: seq<W.byte>)
    requires urlPath == dir + "/" + stem + suffix
    requires Encoding.PrecompressedEncoding(suffix) == Wrappers.Some(enc) && '/' !in stem
    requires !Mentions(ParseAcceptedEncoding(accept, parsed), enc)
    ensures
      var ct := ContentTypeByExtension(Paths.Ext(stem), lookup);
      var w := Serve("GET", urlPath, accept, parsed, lookup, opts, h, FileServer(size, stored));
      && w.dec == W.Decoder(enc, map[H.ContentType := [ct]])
      && |w.calls| == 1 && w.calls[0].SendHeader?
      && H.ContentEncoding !in w.calls[0].header
      && H.Get(w.calls[0].header, H.ContentLength) == ""
      && H.Get(w.calls[0].header, H.ContentType) == ct
      && w.sink == stored
  {
    var ct := ContentTypeByExtension(Paths.Ext(stem), lookup);
    var o := map[H.ContentType := [ct]];
    SelectStored("GET", dir, stem, suffix, enc, ParseAcceptedEncoding(accept, parsed), lookup);
    ServeRunsChoice("GET", urlPath, accept, parsed, lookup, opts, h, FileServer(size, stored), Decode(enc, o));
    CodecServesFile(W.Decoder(enc, o), h, size, stored);
    DecodedHeader(h, size, enc, ct);
  }

  /** An encoder serving a file sends its token as Content-Encoding, no length value, and compresses the bytes. */
  lemma EncoderServesFile(tok: string, level: int, h: H.Header, size: string, body: seq<W.byte>)
    ensures
      var w := W.Run(W.NewWriter(W.Encoder(tok, level), h), FileServer(size, body));
      && w.dec == W.Encoder(tok, level)
      && |w.calls| == 1 && w.calls[0].SendHeader? && w.calls[0].status == W.StatusOK
      && H.Get(w.calls[0].header, H.ContentEncoding) == tok
      && H.Get(w.calls[0].header, H.ContentLength) == ""
      && w.sink == body
  {
    CodecServesFile(W.Encoder(tok, level), h, size, body);
    H.NamesDistinct();
  }

  /** A supported token listed first is selected for a plain file. */
  lemma FirstTokenSelected(urlPath: string, dir: string, name: string, lookup: string -> string,
                            accept: string, order: seq<QValue>)
    requires urlPath == dir + "/" + name
    requires name != [] && '/' !in name && Encoding.PrecompressedEncoding(Paths.Ext(name)).None?
    requires accept != "" && order != [] && Encoding.IsValid(order[0].value)
    ensures Select("GET", urlPath, ParseAcceptedEncoding(accept, Parsed(order)), lookup) == Encode(order[0].value)
  {
    SelectPlain("GET", dir, name, order, lookup);
  }

  /** A request that selects encoding with `tok` runs the handler on an encoder at the configured level. */
  lemma ServeEncodes(verb: string, urlPath: string, accept: string, parsed: ParseOutcome,
                     lookup: string -> string, opts: HandlerOptions, h: H.Header, ops: seq<W.Op>, tok: string)
    requires Select(verb, urlPath, ParseAcceptedEncoding(accept, parsed), lookup) == Encode(tok)
    requires Encoding.IsValid(tok)
    ensures Serve(verb, urlPath, accept, parsed, lookup, opts, h, ops)
         == W.Run(W.NewWriter(W.Encoder(tok, opts.Level(Encoding.CodecOf(tok).value)), h), ops)
  {
    ServeRunsChoice(verb, urlPath, accept, parsed, lookup, opts, h, ops, Encode(tok));
  }

  /**
    A plain file is compressed with the first token of the client's list
    when that token is supported: the header carries it and no
    Content-Length value, and the file's bytes are fed to the compressor.
  */
  lemma CompressPlain(urlPath: string, dir: string, name: string, lookup: string -> string,
                      opts: HandlerOptions, h: H.Header,
                      accept: string, order: seq<QValue>, size: string, body: seq<W.byte>)
    requires urlPath == dir + "/" + name
    requires name != [] && '/' !in name && Encoding.PrecompressedEncoding(Paths.Ext(name)).None?
    requires accept != "" && order != [] && Encoding.IsValid(order[0].value)
    ensures
      var w := Serve("GET", urlPath, accept, Parsed(order), lookup, opts, h, FileServer(size, body));
      && w.dec.Encoder? && w.dec.token == order[0].value
      && |w.calls| == 1 && w.calls[0].SendHeader? && w.calls[0].status == W.StatusOK
      && H.Get(w.calls[0].header, H.ContentEncoding) == order[0].value
      && H.Get(w.calls[0].header, H.ContentLength) == ""
      && w.sink == body
  {
    var tok := order[0].value;
    FirstTokenSelected(urlPath, dir, name, lookup, accept, order);
    ServeEncodes("GET", urlPath, accept, Parsed(order), lookup, opts, h, FileServer(size, body), tok);
    EncoderServesFile(tok, opts.Level(Encoding.CodecOf(tok).value), h, size, body);
  }

  /** A plain file requested without Accept-Encoding goes out exactly as the file server wrote it. */
  lemma PlainUnchanged(urlPath: string, dir: string, name: string, lookup: string -> string,
                       opts: HandlerOptions, h: H.Header, parsed: ParseOutcome, size: string, body: seq<W.byte>)
    requires urlPath == dir + "/" + name
    requires name != [] && '/' !in name && Encoding.PrecompressedEncoding(Paths.Ext(name)).None?
    ensures
      var w := Serve("GET", urlPath, "", parsed, lookup, opts, h, FileServer(size, body));
      w.calls == [W.SendHeader(W.StatusOK, h[H.ContentLength := [size]]), W.SendBody(body)]
  {
    SelectPlain("GET", dir, name, [], lookup);
    ServeRunsChoice("GET", urlPath, "", parsed, lookup, opts, h, FileServer(size, body), Unchanged);
    PassthroughServesFile(h, size, body);
  }

  /** Rows "precompression (gzip1)" and "(gzip2)": gzip listed first or second. */
  lemma PrecompressionGzip(urlPath: string, order: seq<string>, lookup: string -> string, opts: HandlerOptions,
                           h: H.Header, accept: string, size: string, stored: seq<W.byte>)
    requires urlPath == "/test1.txt.gz"
    requires accept != "" && (order == ["gzip", "deflate", "br"] || order == ["deflate", "gzip", "br"])
    ensures
      var w := Serve("GET", urlPath, accept, Parsed(Tokens(order)), lookup, opts, h, FileServer(size, stored));
      && |w.calls| == 2 && w.calls[0].SendHeader?
      && H.Get(w.calls[0].header, H.ContentEncoding) == "gzip"
      && w.calls[1] == W.SendBody(stored)
  {
    StoredTestPath(urlPath, "test1.txt", ".gz");
    var vs := Tokens(order);
    assert vs[if order[0] == "gzip" then 0 else 1].value == "gzip";
    ServeStored(urlPath, "", "test1.txt", ".gz", "gzip", lookup, opts, h, accept, vs, size, stored);
  }

  /** Rows "precompression (brotli1)" and "(brotli2)": br listed first or last. */
  lemma PrecompressionBrotli(urlPath: string, order: seq<string>, lookup: string -> string, opts: HandlerOptions,
                             h: H.Header, accept: string, size: string, stored: seq<W.byte>)
    requires urlPath == "/test2.txt.br"
    requires accept != "" && (order == ["br", "gzip", "deflate"] || order == ["gzip", "deflate", "br"])
    ensures
      var w := Serve("GET", urlPath, accept, Parsed(Tokens(order)), lookup, opts, h, FileServer(size, stored));
      && |w.calls| == 2 && w.calls[0].SendHeader?
      && H.Get(w.calls[0].header, H.ContentEncoding) == "br"
      && w.calls[1] == W.SendBody(stored)
  {
    StoredTestPath(urlPath, "test2.txt", ".br");
    var vs := Tokens(order);
    assert vs[if order[0] == "br" then 0 else 2].value == "br";
    ServeStored(urlPath, "", "test2.txt", ".br", "br", lookup, opts, h, accept, vs, size, stored);
  }

  /** Rows "decode precompression (gzip)" and "(brotli)": no Accept-Encoding sent. */
  lemma DecodePrecompression(urlPath: string, lookup: string -> string, opts: HandlerOptions, h: H.Header,
                             parsed: ParseOutcome, size: string, stored: seq<W.byte>)
    requires urlPath == "/test1.txt.gz" || urlPath == "/test2.txt.br"
    ensures
      var w := Serve("GET", urlPath, "", parsed, lookup, opts, h, FileServer(size, stored));
      && |w.calls| == 1 && w.calls[0].SendHeader?
      && H.ContentEncoding !in w.calls[0].header
      && w.sink == stored
  {
    if urlPath == "/test1.txt.gz" {
      StoredTestPath(urlPath, "test1.txt", ".gz");
      DecodeStored(urlPath, "", "test1.txt", ".gz", "gzip", lookup, opts, h, "", parsed, size, stored);
    } else {
      StoredTestPath(urlPath, "test2.txt", ".br");
      DecodeStored(urlPath, "", "test2.txt", ".br", "br", lookup, opts, h, "", parsed, size, stored);
    }
  }

  /** Rows "compression (gzip)", "(deflate)" and "(brotli)": the first listed token is used. */
  lemma Compression(urlPath: string, order: seq<string>, lookup: string -> string, opts: HandlerOptions,
                    h: H.Header, accept: string, size: string, body: seq<W.byte>)
    requires urlPath == "/test3.txt"
    requires accept != ""
    requires || order == ["gzip", "deflate", "br"]
             || order == ["deflate", "gzip", "br"]
             || order == ["br", "gzip", "deflate"]
    ensures
      var w := Serve("GET", urlPath, accept, Parsed(Tokens(order)), lookup, opts, h, FileServer(size, body));
      && |w.calls| == 1 && w.calls[0].SendHeader?
      && H.Get(w.calls[0].header, H.ContentEncoding) == order[0]
      && w.sink == body
  {
    PlainTestPath(urlPath, "test3.txt");
    CompressPlain(urlPath, "", "test3.txt", lookup, opts, h, accept, Tokens(order), size, body);
  }

  /** Row "no compression". */
  lemma NoCompression(urlPath: string, lookup: string -> string, opts: HandlerOptions, h: H.Header,
                      parsed: ParseOutcome, size: string, body: seq<W.byte>)
    requires urlPath == "/test3.txt"
    ensures
      var w := Serve("GET", urlPath, "", parsed, lookup, opts, h, FileServer(size, body));
      w.calls == [W.SendHeader(W.StatusOK, h[H.ContentLength := [size]]), W.SendBody(body)]
  {
    PlainTestPath(urlPath, "test3.txt");
    PlainUnchanged(urlPath, "", "test3.txt", lookup, opts, h, parsed, size, body);
  }

  /**
    Presence gates the stored-asset branch whatever the weight: gzip listed
    with q=0 still gets the stored gzip bytes with Content-Encoding gzip,
    and for a plain file a q=0 token is still used to encode.
  */
  lemma ZeroQualityStillSelected(asset: string, plain: string, lookup: string -> string,
                                 gz: seq<QValue>, br: seq<QValue>)
    requires asset == "/test1.txt.gz" && plain == "/test3.txt"
    requires gz == [QValue("gzip", 0.0)] && br == [QValue("br", 0.0)]
    ensures Select("GET", asset, gz, lookup).Overlay?
    ensures Select("GET", plain, br, lookup) == Encode("br")
  {
    assert gz[0].value == "gzip";
    StoredTestPath(asset, "test1.txt", ".gz");
    SelectStored("GET", "", "test1.txt", ".gz", "gzip", gz, lookup);
    PlainTestPath(plain, "test3.txt");
    SelectPlain("GET", "", "test3.txt", br, lookup);
  }
}
