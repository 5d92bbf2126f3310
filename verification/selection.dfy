/**
  The per-request decision of the handler: bypass for methods outside the
  allow-list, then either serve a stored precompressed asset (as is, or
  decoded) or encode with the first supported token the client prefers,
  or leave the writer alone.
*/
module Selection {
  import opened Wrappers
  import opened Paths
  import H = Headers
  import opened Encoding
  import opened Negotiation
  import opened Options
  import W = Writers

  /** The transformation chosen for one request. */
  datatype Choice =
    | Bypass                                // method not eligible: original writer, nothing else done
    | Overlay(headers: H.Header)            // serve the stored bytes with a header overlay
    | Decode(enc: string, headers: H.Header) // decode a precompressed asset
    | Encode(enc: string)                   // compress with the negotiated token
    | Unchanged                             // eligible, but nothing to do: original writer

  /** The methods the middleware handles; HEAD, PUT and every other method bypass it. */
  const AllowedMethods: set<string> := {"GET", "POST", "DELETE", "OPTIONS", "PATCH"}

  const OctetStream: string := "application/octet-stream"

  /**
    The content type for an extension: the lookup's answer, or the opaque
    octet-stream type when the lookup knows nothing.
  */
  function ContentTypeByExtension(ext: string, typeByExtension: string -> string): (ct: string)
    ensures ct != ""
    ensures typeByExtension(ext) != "" ==> ct == typeByExtension(ext)
    ensures typeByExtension(ext) == "" ==> ct == OctetStream
  {
    var typ := typeByExtension(ext);
    if typ == "" then OctetStream else typ
  }

  /** What the request path says about how the resource is stored. */
  datatype Classification =
    | Plain
    | Precompressed(enc: string, logicalName: string, contentType: string)

  /** The suffix that marks a precompressed asset stored as `enc`. */
  function SuffixOf(enc: string): string {
    if enc == Gzip then ".gz" else ".br"
  }

  /**
    What the request path says about the resource: a stored asset when the
    extension of its last element is in the precompression table.
  */
  function Classify(urlPath: string, typeByExtension: string -> string): Classification
  {
    var name := Base(urlPath);
    var ext := Ext(name);
    match PrecompressedEncoding(ext)
    case None => Plain
    case Some(enc) =>
      var logical := name[..|name| - |ext|];
      Precompressed(enc, logical, ContentTypeByExtension(Ext(logical), typeByExtension))
  }

  /**
    A path is precompressed exactly when the extension of its last element
    is ".gz" or ".br"; the logical name is that element without the suffix,
    and the content type comes from the logical name's own extension.
  */
  lemma ClassifySpec(urlPath: string, typeByExtension: string -> string)
    ensures var c := Classify(urlPath, typeByExtension);
      && (c.Precompressed? <==> Ext(Base(urlPath)) == ".gz" || Ext(Base(urlPath)) == ".br")
      && (c.Precompressed? ==> (c.enc == Gzip || c.enc == Brotli) && SuffixOf(c.enc) == Ext(Base(urlPath)))
      && (c.Precompressed? ==> c.logicalName + SuffixOf(c.enc) == Base(urlPath))
      && (c.Precompressed? ==> c.contentType == ContentTypeByExtension(Ext(c.logicalName), typeByExtension))
  {
    var name := Base(urlPath);
    var ext := Ext(name);
    match PrecompressedEncoding(ext)
    case None =>
      assert Classify(urlPath, typeByExtension) == Plain;
    case Some(enc) =>
      var logical := name[..|name| - |ext|];
      assert Classify(urlPath, typeByExtension)
          == Precompressed(enc, logical, ContentTypeByExtension(Ext(logical), typeByExtension));
      assert SuffixOf(enc) == ext;
      SplitAtSuffix(name, ext);
  }

  /** A string is its part before a suffix followed by the suffix. */
  lemma SplitAtSuffix(s: string, suffix: string)
    requires IsSuffix(suffix, s)
    ensures s[..|s| - |suffix|] + suffix == s
  {
  }

  /** Both precompression suffixes are a dot followed by letters. */
  lemma SuffixShape(suffix: string)
    requires suffix == ".gz" || suffix == ".br"
    ensures |suffix| == 3 && suffix[0] == '.'
    ensures forall k :: 1 <= k < |suffix| ==> suffix[k] != '.' && suffix[k] != '/'
  {
  }

  /**
    The naming convention read back: a path ending in "/" + stem + suffix,
    for a stem without slashes and a precompression suffix, is the stored
    form of `stem`, with the content type of the stem's extension.
  */
  lemma ClassifyStoredAsset(dir: string, stem: string, suffix: string, typeByExtension: string -> string)
    requires suffix == ".gz" || suffix == ".br"
    requires '/' !in stem
    ensures Classify(dir + "/" + stem + suffix, typeByExtension)
         == Precompressed(if suffix == ".gz" then Gzip else Brotli, stem,
                          ContentTypeByExtension(Ext(stem), typeByExtension))
  {
    var name := stem + suffix;
    assert dir + "/" + stem + suffix == dir + "/" + name;
    SuffixShape(suffix);
    assert '/' !in name by {
      assert forall k :: 0 <= k < |suffix| ==> name[|stem| + k] == suffix[k];
    }
    BaseOfLastName(dir, name);
    ExtOfSuffixedName(stem, suffix);
    ClassifyByName(dir + "/" + name, stem, suffix, typeByExtension);
  }

  /** Classification read off a path whose base is stem + suffix, the suffix being its extension. */
  lemma ClassifyByName(p: string, stem: string, suffix: string, typeByExtension: string -> string)
    requires suffix == ".gz" || suffix == ".br"
    requires Base(p) == stem + suffix && Ext(stem + suffix) == suffix
    ensures Classify(p, typeByExtension)
         == Precompressed(if suffix == ".gz" then Gzip else Brotli, stem,
                          ContentTypeByExtension(Ext(stem), typeByExtension))
  {
    var name := stem + suffix;
    assert name[..|name| - |suffix|] == stem;
    assert PrecompressedEncoding(suffix) == Some(if suffix == ".gz" then Gzip else Brotli);
  }

  /** A last element whose extension is not a precompression suffix names a plain resource. */
  lemma ClassifyPlainName(dir: string, name: string, typeByExtension: string -> string)
    requires name != [] && '/' !in name
    requires Ext(name) != ".gz" && Ext(name) != ".br"
    ensures Classify(dir + "/" + name, typeByExtension) == Plain
  {
    BaseOfLastName(dir, name);
  }

  /** The header overlay of a precompressed asset: its logical content type. */
  function ContentTypeHeader(ct: string): H.Header {
    H.Set(map[], H.ContentType, ct)
  }

  /**
    The selection made by the handler. The values are the request's
    preference list, already parsed and sorted.
  */
  function Select(verb: string, urlPath: string, values: seq<QValue>, typeByExtension: string -> string): (c: Choice)
    ensures c.Bypass? <==> verb !in AllowedMethods
  {
    if verb !in AllowedMethods then Bypass
    else
      var accepted := AcceptedTokens(values);
      match Classify(urlPath, typeByExtension)
      case Precompressed(enc, _, ct) =>
        var header := ContentTypeHeader(ct);
        if enc in accepted then Overlay(H.Set(header, H.ContentEncoding, enc))
        else Decode(enc, header)
      case Plain =>
        match FirstValidIndex(values)
        case Some(i) => Encode(values[i].value)
        case None => Unchanged
  }

  /**
    What the selection means, outcome by outcome: exactly one of them is
    chosen; a stored asset (its last element ends in ".gz" or ".br") is
    served as is with Content-Encoding iff the client lists its encoding at
    any weight, and decoded otherwise, the logical content type overlaid in
    both cases; a plain resource is encoded with the first supported token
    of the list, and left alone when the list has none.
  */
  lemma SelectSpec(verb: string, urlPath: string, values: seq<QValue>, typeByExtension: string -> string)
    ensures var c := Select(verb, urlPath, values, typeByExtension);
      && (c.Bypass? <==> verb !in AllowedMethods)
      && (verb in AllowedMethods ==>
           ((c.Overlay? || c.Decode?) <==> Ext(Base(urlPath)) == ".gz" || Ext(Base(urlPath)) == ".br"))
    ensures verb in AllowedMethods && Classify(urlPath, typeByExtension).Precompressed? ==>
      var c := Select(verb, urlPath, values, typeByExtension);
      var cls := Classify(urlPath, typeByExtension);
      && (c.Overlay? <==> Mentions(values, cls.enc))
      && (c.Overlay? ==> c.headers == map[H.ContentType := [cls.contentType], H.ContentEncoding := [cls.enc]])
      && (c.Decode? ==> c.enc == cls.enc && c.headers == map[H.ContentType := [cls.contentType]])
    ensures verb in AllowedMethods && Classify(urlPath, typeByExtension).Plain? ==>
      var c := Select(verb, urlPath, values, typeByExtension);
      && (c.Encode? <==> exists j :: 0 <= j < |values| && IsValid(values[j].value))
      && (c.Unchanged? <==> forall j :: 0 <= j < |values| ==> !IsValid(values[j].value))
    ensures Select(verb, urlPath, values, typeByExtension).Encode? ==>
      var c := Select(verb, urlPath, values, typeByExtension);
      exists i :: 0 <= i < |values| && values[i].value == c.enc && IsValid(c.enc)
               && forall j :: 0 <= j < i ==> !IsValid(values[j].value)
  {
    ClassifySpec(urlPath, typeByExtension);
    if verb in AllowedMethods {
      match Classify(urlPath, typeByExtension)
      case Precompressed(enc, stem, ct) =>
        SelectOfStoredClass(verb, urlPath, values, typeByExtension, enc, stem, ct);
      case Plain =>
        SelectOfPlainClass(verb, urlPath, values, typeByExtension);
    }
  }

  /** Select on a path already classified as plain: the first supported token, if any. */
  lemma SelectOfPlainClass(verb: string, p: string, values: seq<QValue>, typeByExtension: string -> string)
    requires verb in AllowedMethods
    requires Classify(p, typeByExtension).Plain?
    ensures var c := Select(verb, p, values, typeByExtension);
      && (c.Encode? || c.Unchanged?)
      && (c.Encode? <==> exists j :: 0 <= j < |values| && IsValid(values[j].value))
      && (c.Encode? ==>
            exists i :: 0 <= i < |values| && values[i].value == c.enc && IsValid(c.enc)
                     && forall j :: 0 <= j < i ==> !IsValid(values[j].value))
  {
    match FirstValidIndex(values)
    case Some(i) =>
      assert Select(verb, p, values, typeByExtension) == Encode(values[i].value);
    case None =>
  }

  /**
    For an allowed method on a stored asset (a last element stem + suffix,
    the suffix marking the encoding `enc`), the outcome turns only on
    whether the client lists `enc`: if so the stored bytes are overlaid
    with the stem's content type and the encoding, otherwise they are
    decoded under the stem's content type.
  */
  lemma SelectStored(verb: string, dir: string, stem: string, suffix: string, enc: string,
                     values: seq<QValue>, typeByExtension: string -> string)
    requires verb in AllowedMethods
    requires PrecompressedEncoding(suffix) == Some(enc) && '/' !in stem
    ensures
      var ct := ContentTypeByExtension(Ext(stem), typeByExtension);
      Select(verb, dir + "/" + stem + suffix, values, typeByExtension)
        == if Mentions(values, enc) then Overlay(map[H.ContentType := [ct], H.ContentEncoding := [enc]])
           else Decode(enc, map[H.ContentType := [ct]])
  {
    ClassifyStoredAsset(dir, stem, suffix, typeByExtension);
    SelectOfStoredClass(verb, dir + "/" + stem + suffix, values, typeByExtension,
                        enc, stem, ContentTypeByExtension(Ext(stem), typeByExtension));
  }

  /** Select on a path already classified as a stored asset. */
  lemma SelectOfStoredClass(verb: string, p: string, values: seq<QValue>, typeByExtension: string -> string,
                            enc: string, stem: string, ct: string)
    requires verb in AllowedMethods
    requires Classify(p, typeByExtension) == Precompressed(enc, stem, ct)
    ensures
      Select(verb, p, values, typeByExtension)
        == if Mentions(values, enc) then Overlay(map[H.ContentType := [ct], H.ContentEncoding := [enc]])
           else Decode(enc, map[H.ContentType := [ct]])
  {
    var header := ContentTypeHeader(ct);
    assert header == map[H.ContentType := [ct]];
    assert enc in AcceptedTokens(values) <==> Mentions(values, enc);
  }

  /**
    For an allowed method on a plain resource (a last element whose
    extension marks no encoding), a supported token listed first is the
    one chosen, and an empty list leaves the response alone.
  */
  lemma SelectPlain(verb: string, dir: string, name: string, values: seq<QValue>, typeByExtension: string -> string)
    requires verb in AllowedMethods
    requires name != [] && '/' !in name && PrecompressedEncoding(Ext(name)).None?
    ensures values != [] && IsValid(values[0].value) ==>
      Select(verb, dir + "/" + name, values, typeByExtension) == Encode(values[0].value)
    ensures values == [] ==> Select(verb, dir + "/" + name, values, typeByExtension) == Unchanged
  {
    ClassifyPlainName(dir, name, typeByExtension);
  }

  /** The choice can be turned into a writer: an encoding choice names a supported token. */
  predicate WellFormed(c: Choice) {
    c.Encode? ==> IsValid(c.enc)
  }

  /**
    Every selection is well formed, and a stored encoding is always gzip or
    brotli, never deflate.
  */
  lemma SelectWellFormed(verb: string, urlPath: string, values: seq<QValue>, typeByExtension: string -> string)
    ensures WellFormed(Select(verb, urlPath, values, typeByExtension))
    ensures Select(verb, urlPath, values, typeByExtension).Decode? ==>
      Select(verb, urlPath, values, typeByExtension).enc in {Gzip, Brotli}
  {
    SelectSpec(verb, urlPath, values, typeByExtension);
  }

  /**
    Over a sorted preference list the encoding chosen for a plain resource
    is a most preferred supported token; a supported token of equal weight
    listed earlier would have been chosen instead.
  */
  lemma EncodeIsMostPreferred(verb: string, urlPath: string, values: seq<QValue>,
                              typeByExtension: string -> string, j: nat)
    requires SortedByQ(values)
    requires Select(verb, urlPath, values, typeByExtension).Encode?
    requires j < |values| && IsValid(values[j].value)
    ensures exists i :: 0 <= i <= j && values[i].value == Select(verb, urlPath, values, typeByExtension).enc
                     && values[j].q <= values[i].q
  {
    var i := FirstValidIndex(values).value;
    FirstValidIsMostPreferred(values, j);
    assert values[i].value == Select(verb, urlPath, values, typeByExtension).enc;
  }

  /**
    The writer handed to the inner handler: the original writer for Bypass
    and Unchanged, otherwise the matching decorator; an encoder gets the
    configured level of its codec.
  */
  function Wrap(c: Choice, opts: HandlerOptions, h: H.Header): (w: W.Writer)
    requires WellFormed(c)
    ensures w == W.NewWriter(w.dec, h)
    ensures w.dec.Passthrough? <==> c.Bypass? || c.Unchanged?
    ensures c.Overlay? ==> w.dec == W.Overlayer(c.headers)
    ensures c.Decode? ==> w.dec == W.Decoder(c.enc, c.headers)
    ensures c.Encode? ==> w.dec.Encoder? && w.dec.token == c.enc
    ensures c.Encode? ==> w.dec.level == opts.Level(CodecOf(c.enc).value)
  {
    match c
    case Bypass => W.NewWriter(W.Passthrough, h)
    case Unchanged => W.NewWriter(W.Passthrough, h)
    case Overlay(headers) => W.NewWriter(W.Overlayer(headers), h)
    case Decode(enc, headers) => W.NewWriter(W.Decoder(enc, headers), h)
    case Encode(enc) => W.NewWriter(W.Encoder(enc, opts.Level(CodecOf(enc).value)), h)
  }

  /**
    One request end to end: select from the method, path and the parsed
    Accept-Encoding value, wrap the underlying writer whose header is `h`,
    and run the inner handler's calls `ops` on the result.
  */
  function Serve(verb: string, urlPath: string, acceptEncoding: string, parsed: ParseOutcome,
                 typeByExtension: string -> string, opts: HandlerOptions, h: H.Header, ops: seq<W.Op>): W.Writer
  {
    var c := Select(verb, urlPath, ParseAcceptedEncoding(acceptEncoding, parsed), typeByExtension);
    SelectWellFormed(verb, urlPath, ParseAcceptedEncoding(acceptEncoding, parsed), typeByExtension);
    W.Run(Wrap(c, opts, h), ops)
  }

  /**
    The writer the inner handler is given, read off the request alone: the
    original writer for a method outside the allow-list or for a plain
    resource with no supported token listed; the overlay writer (with the
    logical content type and the encoding) for a stored asset whose
    encoding is listed; the decoder (with the logical content type) for one
    whose encoding is not; otherwise an encoder for the first supported
    token, running at the level the options give its codec.
  */
  lemma ServeWriter(verb: string, urlPath: string, acceptEncoding: string, parsed: ParseOutcome,
                    typeByExtension: string -> string, opts: HandlerOptions, h: H.Header, ops: seq<W.Op>)
    ensures
      var d := Serve(verb, urlPath, acceptEncoding, parsed, typeByExtension, opts, h, ops).dec;
      var vs := ParseAcceptedEncoding(acceptEncoding, parsed);
      var cls := Classify(urlPath, typeByExtension);
      && (d.Passthrough? <==>
            verb !in AllowedMethods || (cls.Plain? && forall j :: 0 <= j < |vs| ==> !IsValid(vs[j].value)))
      && (d.Overlayer? <==> verb in AllowedMethods && cls.Precompressed? && Mentions(vs, cls.enc))
      && (d.Overlayer? ==>
            d.overrides == map[H.ContentType := [cls.contentType], H.ContentEncoding := [cls.enc]])
      && (d.Decoder? <==> verb in AllowedMethods && cls.Precompressed? && !Mentions(vs, cls.enc))
      && (d.Decoder? ==> d.token == cls.enc && d.overrides == map[H.ContentType := [cls.contentType]])
      && (d.Encoder? <==>
            verb in AllowedMethods && cls.Plain? && exists j :: 0 <= j < |vs| && IsValid(vs[j].value))
      && (d.Encoder? ==>
            && IsValid(d.token) && d.level == opts.Level(CodecOf(d.token).value)
            && exists i :: 0 <= i < |vs| && vs[i].value == d.token
                        && forall j :: 0 <= j < i ==> !IsValid(vs[j].value))
  {
    var vs := ParseAcceptedEncoding(acceptEncoding, parsed);
    SelectSpec(verb, urlPath, vs, typeByExtension);
    SelectWellFormed(verb, urlPath, vs, typeByExtension);
  }

  /**
    With options built by the handler's constructor, an encoder runs at the
    last level set for its codec, or at the codec's default when no option
    sets one.
  */
  lemma ConfiguredEncoderLevel(verb: string, urlPath: string, acceptEncoding: string, parsed: ParseOutcome,
                               typeByExtension: string -> string, os: seq<LevelOption>, h: H.Header, ops: seq<W.Op>)
    requires NewHandlerOptions(os).Success?
    ensures
      var d := Serve(verb, urlPath, acceptEncoding, parsed, typeByExtension, NewHandlerOptions(os).value, h, ops).dec;
      d.Encoder? ==> IsValid(d.token) && d.level == LastSetting(os, CodecOf(d.token).value, DefaultLevel(CodecOf(d.token).value))
  {
    ServeWriter(verb, urlPath, acceptEncoding, parsed, typeByExtension, NewHandlerOptions(os).value, h, ops);
    NewHandlerOptionsSpec(os);
  }

  /**
    An allowed request for a plain resource whose Accept-Encoding is absent
    or cannot be parsed leaves the original writer in place: the
    underlying writer sees exactly the handler's calls.
  */
  lemma NoPreferenceLeavesPlainUnchanged(verb: string, urlPath: string, acceptEncoding: string, parsed: ParseOutcome,
                                         typeByExtension: string -> string, opts: HandlerOptions, h: H.Header, ops: seq<W.Op>)
    requires verb in AllowedMethods
    requires acceptEncoding == "" || parsed.Malformed?
    requires PrecompressedEncoding(Ext(Base(urlPath))).None?
    ensures Serve(verb, urlPath, acceptEncoding, parsed, typeByExtension, opts, h, ops)
         == W.Run(W.NewWriter(W.Passthrough, h), ops)
    ensures Serve(verb, urlPath, acceptEncoding, parsed, typeByExtension, opts, h, ops).calls == W.DirectCalls(h, ops)
  {
    var vs := ParseAcceptedEncoding(acceptEncoding, parsed);
    assert vs == [];
    assert Classify(urlPath, typeByExtension) == Plain;
    assert Select(verb, urlPath, vs, typeByExtension) == Unchanged;
    assert Wrap(Unchanged, opts, h) == W.NewWriter(W.Passthrough, h);
    W.PassthroughIsDirect(h, ops);
  }

  /**
    An allowed request for a stored asset whose Accept-Encoding is absent
    or cannot be parsed gets the decoder of the asset's encoding, with the
    logical content type as its only override.
  */
  lemma NoPreferenceDecodesStored(verb: string, urlPath: string, acceptEncoding: string, parsed: ParseOutcome,
                                  typeByExtension: string -> string, opts: HandlerOptions, h: H.Header, ops: seq<W.Op>,
                                  enc: string)
    requires verb in AllowedMethods
    requires acceptEncoding == "" || parsed.Malformed?
    requires PrecompressedEncoding(Ext(Base(urlPath))) == Some(enc)
    ensures Serve(verb, urlPath, acceptEncoding, parsed, typeByExtension, opts, h, ops).dec
         == W.Decoder(enc, map[H.ContentType := [Classify(urlPath, typeByExtension).contentType]])
  {
    assert ParseAcceptedEncoding(acceptEncoding, parsed) == [];
    SelectSpec(verb, urlPath, [], typeByExtension);
  }

  /**
    A request whose method is not in the allow-list is served as if the
    middleware were absent: the underlying writer sees exactly the
    handler's calls and the header is the handler's own.
  */
  lemma BypassIsTransparent(verb: string, urlPath: string, acceptEncoding: string, parsed: ParseOutcome,
                            typeByExtension: string -> string, opts: HandlerOptions, h: H.Header, ops: seq<W.Op>)
    requires verb !in AllowedMethods
    ensures Serve(verb, urlPath, acceptEncoding, parsed, typeByExtension, opts, h, ops).calls == W.DirectCalls(h, ops)
    ensures Serve(verb, urlPath, acceptEncoding, parsed, typeByExtension, opts, h, ops).header == W.HandlerHeader(h, ops)
  {
    W.PassthroughIsDirect(h, ops);
  }

  /**
    Whatever is selected, the body the handler writes reaches its sink (the
    codec, or the underlying writer) complete and in order.
  */
  lemma ServeDeliversBody(verb: string, urlPath: string, acceptEncoding: string, parsed: ParseOutcome,
                          typeByExtension: string -> string, opts: HandlerOptions, h: H.Header, ops: seq<W.Op>)
    ensures W.Delivered(Serve(verb, urlPath, acceptEncoding, parsed, typeByExtension, opts, h, ops)) == W.BodyOfOps(ops)
  {
    var c := Select(verb, urlPath, ParseAcceptedEncoding(acceptEncoding, parsed), typeByExtension);
    SelectWellFormed(verb, urlPath, ParseAcceptedEncoding(acceptEncoding, parsed), typeByExtension);
    W.RunDeliversInOrder(Wrap(c, opts, h), ops);
  }

  /**
    Whenever a transformation (encode or decode) is selected and the header
    has been sent, the sent header carries no Content-Length value.
  */
  lemma TransformDropsContentLength(verb: string, urlPath: string, acceptEncoding: string, parsed: ParseOutcome,
                                    typeByExtension: string -> string, opts: HandlerOptions, h: H.Header, ops: seq<W.Op>)
    ensures
      var w := Serve(verb, urlPath, acceptEncoding, parsed, typeByExtension, opts, h, ops);
      w.dec.Transforms() && w.wroteHeader ==>
        && w.calls != [] && w.calls[0].SendHeader?
        && H.Get(w.calls[0].header, H.ContentLength) == ""
  {
    var c := Select(verb, urlPath, ParseAcceptedEncoding(acceptEncoding, parsed), typeByExtension);
    SelectWellFormed(verb, urlPath, ParseAcceptedEncoding(acceptEncoding, parsed), typeByExtension);
    var w0 := Wrap(c, opts, h);
    if w0.dec.Transforms() {
      W.SentHeaderIsPrepared(w0.dec, h, ops);
      W.RunValid(w0, ops);
    }
  }
}
