# httpenc in Dafny

A model of `httpenc`, a Go HTTP middleware that compresses and decompresses
response content. A wrapped handler is served in one of five ways, chosen
from the request method, the last element of the URL path and the parsed
`Accept-Encoding` value:

- **bypass**: the method is not GET, POST, DELETE, OPTIONS or PATCH;
- **overlay**: a stored asset (`.gz`/`.br`) whose encoding the client lists
  is sent as is, with `Content-Encoding` and the logical `Content-Type`;
- **decode**: a stored asset whose encoding the client does not list is sent
  through a decoder, with no `Content-Encoding` and no `Content-Length` value;
- **encode**: a plain resource is compressed with the first supported token
  of the client's sorted list;
- **unchanged**: none of the above applies.

The modules follow the program's structure:

- `Wrappers`: `Option` and `Result`.
- `Paths`: the `path.Base` and `path.Ext` semantics the handler relies on.
- `Headers`: `http.Header` as a map from names to value lists, with `Get`,
  `Set`, `Del`, the override copy, and the guarded Content-Length removal.
- `Encoding`: `EncodingType.IsValid`, the three codecs, and the
  precompression suffix table.
- `Negotiation`: the parsed `Accept-Encoding` list and the first-supported-token
  search.
- `Options`: the level validators, the defaults, and option application in order.
- `Writers`: the three decorating response writers and the original writer,
  as one closed `Decorator` type. Their `WriteHeader` and `Write` are pure
  state transitions that record the calls the writer itself makes on the
  underlying writer, and the bytes it hands to its codec. A handler's calls
  are a sequence of `Op`s folded by `Run`.
- `Selection`: the handler closure as `Select`. `Wrap` builds the writer
  handed to the inner handler, and `Serve` runs one request end to end.
- `Scenarios`: the handler test table, restated with a file server as the
  inner handler.

Stored compressed bytes are opaque here. The model says where body bytes go
(to a codec, or straight to the underlying writer) and in what order, not
what a codec makes of them.

## Model

| member | source | states |
|---|---|---|
| Encoding.IsValid | httpenc.go:26-32 | a token is valid exactly when it is "gzip", "deflate" or "br" |
| Encoding.CodecOf | httpenc.go:148-157 | a token has a codec exactly when it is valid, and that codec's token is the token itself |
| Encoding.TokenCodecRoundTrip | httpenc.go:18-24 | every codec's token is valid and maps back to the same codec |
| Encoding.PrecompressedEncoding | httpenc.go:34-37 | only ".gz" (gzip) and ".br" (brotli) mark a stored asset; deflate is never a stored encoding |
| Paths.Ext | httpenc.go:65 | the extension is a suffix of the path; it is empty or starts with the only dot it contains, and it holds no slash |
| Paths.ExtEmptyIffNoDot | httpenc.go:65 | the extension is empty exactly when the last path element has no dot |
| Paths.ExtIsSuffixFromLastDot | httpenc.go:65 | the extension runs from the last dot of the last element to the end |
| Paths.Base | httpenc.go:64 | the base is never empty: "." for the empty path, "/" for all slashes, otherwise a name without slashes |
| Paths.BaseIsLastElement | httpenc.go:64 | the base is the last slash-delimited element, with only trailing slashes after it |
| Paths.BaseOfLastName | httpenc.go:64 | the base of dir + "/" + name is the name itself |
| Paths.ExtOfSuffixedName | httpenc.go:77 | a name ending in a suffix like ".gz" has exactly that suffix as its extension |
| Headers.Overlay | httpenc.go:294-296 | the override keys take the override values and the other keys keep theirs |
| Headers.DropContentLength | httpenc.go:187-189 | afterwards Content-Length has no value; a Content-Length key whose first value is empty is kept unchanged, and so is every other key |
| Negotiation.AcceptedTokens | httpenc.go:68-71 | a token is accepted exactly when some entry of the list names it, whatever its weight |
| Negotiation.FirstValidIndex | httpenc.go:97-106 | the index found is the first entry with a supported token; there is none exactly when no entry is supported |
| Negotiation.FirstValidIsMostPreferred | httpenc.go:97-106 | over a sorted list, the first supported entry has a weight at least that of any other supported entry |
| Options.Apply | httpenc.go:369-394 | an option succeeds exactly when its level is in its codec's range; it sets only that codec's level, and otherwise reports the codec and the level |
| Options.ApplyAllSpec | httpenc.go:51-53 | options apply in order: success exactly when none is out of range; each level is the last setting for its codec; a failure reports the first bad option |
| Options.NewHandlerOptionsSpec | httpenc.go:46-53 | the options are accepted exactly when every level is in its codec's range (gzip and deflate -2..9, brotli 0..11); each codec then has its last setting, or its default (gzip -1, deflate -1, brotli 6) |
| Writers.PrepareHeader | httpenc.go:185-191 | encoder (lines 185-191): Content-Length value dropped, Content-Encoding set to its token, other keys kept. Decoder (lines 294-302): overrides copied, Content-Length value dropped, Content-Encoding removed. Overlay writer (lines 346-348): overrides copied only |
| Writers.WriteHeader | httpenc.go:181-194 | a call keeps a valid writer valid and moves no body bytes; a decorator's header-send count rises by one on the first call and not after (a repeated call changes nothing), while the original writer forwards every call; a send appends the prepared header with the given status |
| Writers.Write | httpenc.go:174-179 | the bytes are appended to what is delivered; a decorator's first write sends the prepared header with status 200 |
| Writers.HeaderSentAtMostOnce | httpenc.go:288-292 | whatever the handler does, a decorator sends at most one header, and exactly one when its flag is set |
| Writers.RunDeliversInOrder | httpenc.go:333-338 | body bytes reach their sink in the order written, nothing added or lost: the underlying writer for the overlay writer (lines 333-338), the compressor for the encoder (lines 174-179), the pipe for the decoder (lines 236-252) |
| Writers.SentHeaderIsPrepared | httpenc.go:340-351 | the sent header is the mutation applied to the handler's header at its first sending call, with that call's status (200 for a write); before that nothing is sent |
| Writers.EncoderSentHeader | httpenc.go:187-193 | once sent, the encoder's header has no Content-Length value and has Content-Encoding set to its token |
| Writers.DecoderSentHeader | httpenc.go:294-304 | once sent, the decoder's header has the overrides, no Content-Length value and no Content-Encoding |
| Writers.OverlaySentHeader | httpenc.go:346-350 | the overlay writer's sent header replaces the override keys and keeps every other key, Content-Length included |
| Writers.PassthroughIsDirect | httpenc.go:59-61 | the original writer sees exactly the handler's own calls and header |
| Selection.ContentTypeByExtension | httpenc.go:129-135 | the lookup's answer when it has one, otherwise application/octet-stream; never empty |
| Selection.ClassifySpec | httpenc.go:64-78 | a path is a stored asset exactly when its base's extension is ".gz" or ".br"; the logical name plus the suffix is the base; the content type comes from the logical name's extension |
| Selection.ClassifyStoredAsset | httpenc.go:74-78 | dir + "/" + stem + ".gz" (or ".br") is the stored form of stem, with the stem's content type |
| Selection.ClassifyPlainName | httpenc.go:74 | a last element without a precompression extension names a plain resource |
| Selection.Select | httpenc.go:56-62 | the request bypasses the middleware exactly when its method is not allowed |
| Selection.SelectSpec | httpenc.go:55-110 | stored asset: overlay iff its encoding is listed at any weight, else decode; the headers are exactly the logical type, plus the encoding for overlay. Plain resource: encode with the first supported token iff one is listed, unchanged iff none is |
| Selection.SelectStored | httpenc.go:74-95 | for an allowed method on dir/stem + ".gz" or ".br": overlay with the stem's content type and the encoding when the client lists the encoding, decode under the stem's content type otherwise |
| Selection.SelectPlain | httpenc.go:96-106 | for an allowed method on a name whose extension marks no encoding: a supported first token is chosen, and an empty list leaves the response unchanged |
| Selection.SelectWellFormed | httpenc.go:97-100 | an encode choice always names a supported token, and a decode choice is always gzip or brotli |
| Selection.EncodeIsMostPreferred | httpenc.go:97-106 | over a sorted list, the chosen encoding is listed no later than, and weighted no lower than, any supported token |
| Selection.ServeWriter | httpenc.go:73-109 | the handler gets the original writer exactly for a disallowed method or a plain resource with no supported token listed; the overlay writer (logical type and encoding) exactly for a stored asset whose encoding is listed; the decoder (logical type only) exactly when it is not; otherwise an encoder for the first supported token at the level the options give its codec |
| Selection.ConfiguredEncoderLevel | httpenc.go:46-53 | with options from the constructor, an encoder runs at the last level set for its codec, or at the codec's default |
| Selection.NoPreferenceLeavesPlainUnchanged | httpenc.go:113-127 | an absent or unparsable Accept-Encoding on a plain resource leaves the original writer in place: the underlying writer sees exactly the handler's calls |
| Selection.NoPreferenceDecodesStored | httpenc.go:113-127 | an absent or unparsable Accept-Encoding on a stored asset selects the decoder of its encoding, with the logical content type as the only override |
| Selection.BypassIsTransparent | httpenc.go:56-62 | for a method outside the allow-list, the underlying writer sees exactly the handler's calls and header |
| Selection.ServeDeliversBody | httpenc.go:109 | whatever the choice, the handler's body bytes reach the codec or the client unchanged and in order |
| Selection.TransformDropsContentLength | httpenc.go:187-189 | once an encoder or decoder has sent its header, that header has no Content-Length value |
| Scenarios.ServeStored | httpenc.go:80-87 | a listed stored asset goes out unchanged with its Content-Encoding, its logical Content-Type and its own Content-Length |
| Scenarios.DecodeStored | httpenc.go:88-95 | an unlisted stored asset goes to the decoder; the header has the logical type, no Content-Encoding and no Content-Length value |
| Scenarios.CompressPlain | httpenc.go:97-106 | a plain file whose first listed token is supported goes to that compressor, and the header names the token |
| Scenarios.PlainUnchanged | httpenc.go:96-109 | a plain file requested without Accept-Encoding goes out exactly as the file server wrote it |
| Scenarios.PrecompressionGzip | httpenc_test.go:22-33 | /test1.txt.gz with gzip listed first or second: stored bytes with Content-Encoding gzip |
| Scenarios.PrecompressionBrotli | httpenc_test.go:34-45 | /test2.txt.br with br listed first or last: stored bytes with Content-Encoding br |
| Scenarios.DecodePrecompression | httpenc_test.go:46-57 | a stored asset requested without Accept-Encoding: no Content-Encoding, and the stored bytes are decoded |
| Scenarios.Compression | httpenc_test.go:58-75 | /test3.txt is compressed with whichever of gzip, deflate or br is listed first |
| Scenarios.NoCompression | httpenc_test.go:76-81 | /test3.txt without Accept-Encoding goes out exactly as the file server wrote it |
| Scenarios.ZeroQualityStillSelected | httpenc.go:68-80 | presence gates both branches: a token at q=0 still selects the stored asset, or the encoder for a plain file |

## Left out

- Compression and decompression themselves (gzip, zlib, brotli): the bytes fed to a codec are recorded, not transformed.
- The decoder's concurrency is not modelled: the pipe, the `sync.Once` start, the goroutine copying decoded bytes to the client, the `WaitGroup`, and errors reported through `CloseWithError`.
- The `Close` methods of the three writers, including the trailer a compressor writes on close.
- The bytes a codec writes to the underlying writer (the compressor's output, and the decode worker's copy at line 281) are not in the call trace. For an encoder or decoder the trace holds only the writer's own header send, so it says what the writer does, not everything the client receives.
- Writers.Write: does not model the `(n, err)` results or the error wrapping of a failed pipe write, because they depend on the codec and the pipe, which are left out.
- Parsing and sorting of `Accept-Encoding` are external to the package. They are a parameter: the parser's sorted output, or a parse error.
- `mime.TypeByExtension` is a function parameter. Its built-in table and system files are not part of this model.
- Go's `path` package is not part of this model. `Paths.Base` and `Paths.Ext` follow its documented behaviour.
- The rest of net/http is not modelled: request and URL parsing, header-name canonicalisation, and the original writer's own write-once behaviour.
- Option panics become a `Failure` carrying the codec and the level, not a program abort.
- The method allow-list follows the code: HEAD and PUT bypass the middleware.
- The Content-Length guard follows the code: a Content-Length key whose first value is empty stays in the header.
- Weights play no part beyond the parser's sort: a token listed with q=0 is treated as listed.
