/**
  The response-writer decorators as pure state machines. A writer holds the
  response header shared with the underlying writer, the `wroteHeader`
  flag, the trace of the calls the writer itself makes on the underlying
  writer, and the byte sink of its codec (the compressor input of the
  encoder, the pipe input of the decoder). The codecs' own output, which
  the compressor and the decode worker write to the underlying writer, is
  not in the trace. `Passthrough` stands for the underlying writer used
  directly.
*/
module Writers {
  import opened Wrappers
  import opened Headers

  newtype byte = b: int | 0 <= b < 256

  const StatusOK: int := 200

  /** A call made on the underlying writer; a header send records the header as sent. */
  datatype Call = SendHeader(status: int, header: Header) | SendBody(data: seq<byte>)

  /** The writer a request's handler is given. */
  datatype Decorator =
    | Passthrough                                 // the original writer
    | Overlayer(overrides: Header)                // headerResponseWriter
    | Encoder(token: string, level: int)          // encodeResponseWriter
    | Decoder(token: string, overrides: Header)   // decodeResponseWriter
  {
    /** Body bytes go to a codec rather than straight to the underlying writer. */
    predicate Transforms() {
      Encoder? || Decoder?
    }
  }

  datatype Writer = Writer(dec: Decorator, header: Header, wroteHeader: bool, calls: seq<Call>, sink: seq<byte>)

  /** A decorator over an underlying writer whose header is `h`, before any call. */
  function NewWriter(dec: Decorator, h: Header): Writer {
    Writer(dec, h, false, [], [])
  }

  /**
    The header mutation a decorator performs just before it sends the
    header: the encoder drops Content-Length and sets Content-Encoding to
    its token; the decoder copies its overrides, drops Content-Length and
    deletes Content-Encoding; the overlay writer copies its overrides only.
  */
  function PrepareHeader(dec: Decorator, h: Header): (r: Header)
    ensures dec.Passthrough? ==> r == h
    ensures dec.Overlayer? ==> r.Keys == h.Keys + dec.overrides.Keys
    ensures dec.Overlayer? ==> forall k :: k in dec.overrides ==> r[k] == dec.overrides[k]
    ensures dec.Overlayer? ==> forall k :: k in h && k !in dec.overrides ==> r[k] == h[k]
    ensures dec.Encoder? ==> ContentEncoding in r && r[ContentEncoding] == [dec.token]
    ensures dec.Transforms() ==> Get(r, ContentLength) == ""
    ensures dec.Encoder? ==> forall k :: k in r ==> k in h || k == ContentEncoding
    ensures dec.Encoder? ==>
      forall k :: k in h && k != ContentEncoding && k != ContentLength ==> k in r && r[k] == h[k]
    ensures dec.Decoder? ==> ContentEncoding !in r
    ensures dec.Decoder? ==> forall k :: k in r ==> k in h || k in dec.overrides
    ensures dec.Decoder? ==>
      forall k :: k in dec.overrides && k != ContentEncoding && k != ContentLength ==>
        k in r && r[k] == dec.overrides[k]
    ensures dec.Decoder? ==>
      forall k :: k in h && k !in dec.overrides && k != ContentEncoding && k != ContentLength ==>
        k in r && r[k] == h[k]
  {
    match dec
    case Passthrough => h
    case Overlayer(overrides) => Overlay(h, overrides)
    case Encoder(token, _) => Set(DropContentLength(h), ContentEncoding, token)
    case Decoder(_, overrides) => Del(DropContentLength(Overlay(h, overrides)), ContentEncoding)
  }

  /** The bytes the codec has been fed, or the bytes written to the underlying writer. */
  function Delivered(w: Writer): seq<byte> {
    if w.dec.Transforms() then w.sink else BodyOfCalls(w.calls)
  }

  /** The body bytes of a call trace, in order. */
  function BodyOfCalls(calls: seq<Call>): seq<byte> {
    if calls == [] then []
    else
      var last := calls[|calls| - 1];
      BodyOfCalls(calls[..|calls| - 1]) + (if last.SendBody? then last.data else [])
  }

  /** The number of header sends in a call trace. */
  function CountHeaders(calls: seq<Call>): nat {
    if calls == [] then 0
    else CountHeaders(calls[..|calls| - 1]) + (if calls[|calls| - 1].SendHeader? then 1 else 0)
  }

  /**
    `WriteHeader(status)`: a decorator sends the header at most once, after
    its header mutation, and later calls change nothing; the original
    writer forwards every call. No body bytes move either way.
  */
  function WriteHeader(w: Writer, status: int): (w': Writer)
    ensures w'.dec == w.dec && w'.sink == w.sink
    ensures Valid(w) ==> Valid(w')
    ensures BodyOfCalls(w'.calls) == BodyOfCalls(w.calls)
    ensures CountHeaders(w'.calls)
         == CountHeaders(w.calls) + (if !w.dec.Passthrough? && w.wroteHeader then 0 else 1)
    ensures !w.dec.Passthrough? ==> w'.wroteHeader
    ensures !w.dec.Passthrough? && w.wroteHeader ==> w' == w
    ensures w.dec.Passthrough? || !w.wroteHeader ==>
      && |w'.calls| == |w.calls| + 1 && w'.calls[..|w.calls|] == w.calls
      && w'.calls[|w.calls|] == SendHeader(status, PrepareHeader(w.dec, w.header))
      && w'.header == PrepareHeader(w.dec, w.header)
  {
    if !w.dec.Passthrough? && w.wroteHeader then
      w
    else
      var h := PrepareHeader(w.dec, w.header);
      var calls := w.calls + [SendHeader(status, h)];
      assert calls[..|calls| - 1] == w.calls;
      w.(wroteHeader := w.wroteHeader || !w.dec.Passthrough?, header := h, calls := calls)
  }

  /**
    `Write(data)`: on a decorator the first write implicitly sends the
    header with status 200; the bytes then go to the codec (encoder,
    decoder) or to the underlying writer (overlay writer, original writer).
  */
  function Write(w: Writer, data: seq<byte>): (w': Writer)
    ensures w'.dec == w.dec
    ensures Delivered(w') == Delivered(w) + data
    ensures w.dec.Passthrough? ==> w' == w.(calls := w.calls + [SendBody(data)])
    ensures !w.dec.Passthrough? ==> w'.wroteHeader
    ensures !w.dec.Passthrough? && !w.wroteHeader ==>
      |w'.calls| > |w.calls| && w'.calls[|w.calls|] == SendHeader(StatusOK, PrepareHeader(w.dec, w.header))
    ensures w.dec.Transforms() ==> w'.sink == w.sink + data
    ensures w.dec.Transforms() && w.wroteHeader ==> w'.calls == w.calls
  {
    if w.dec.Passthrough? then
      w.(calls := w.calls + [SendBody(data)])
    else
      var w1 := if w.wroteHeader then w else WriteHeader(w, StatusOK);
      if w.dec.Transforms() then w1.(sink := w1.sink + data)
      else
        assert BodyOfCalls(w1.calls) == BodyOfCalls(w.calls) by {
          if !w.wroteHeader {
            assert w1.calls[..|w1.calls| - 1] == w.calls;
          }
        }
        var calls := w1.calls + [SendBody(data)];
        assert calls[..|calls| - 1] == w1.calls;
        w1.(calls := calls)
  }

  /** What an inner handler does with the writer it is given. */
  datatype Op =
    | SetHeader(key: string, values: seq<string>)
    | DelHeader(key: string)
    | CallWriteHeader(status: int)
    | CallWrite(data: seq<byte>)
  {
    predicate Sends() {
      CallWriteHeader? || CallWrite?
    }

    /** The status a sending call sends the header with, if it is the first. */
    function Status(): int
      requires Sends()
    {
      if CallWriteHeader? then status else StatusOK
    }
  }

  /** The handler's own change to the header map (all writers share the underlying header). */
  function ApplyHeaderOp(h: Header, op: Op): Header {
    match op
    case SetHeader(key, values) => h[key := values]
    case DelHeader(key) => h - {key}
    case _ => h
  }

  function Step(w: Writer, op: Op): (w': Writer)
    ensures w'.dec == w.dec
  {
    match op
    case CallWriteHeader(status) => WriteHeader(w, status)
    case CallWrite(data) => Write(w, data)
    case _ => w.(header := ApplyHeaderOp(w.header, op))
  }

  /** The writer after the handler's calls `ops`, made in order. */
  function Run(w: Writer, ops: seq<Op>): (w': Writer)
    ensures w'.dec == w.dec
  {
    if ops == [] then w else Step(Run(w, ops[..|ops| - 1]), ops[|ops| - 1])
  }

  /** The header the handler itself builds with `ops`, ignoring sends. */
  function HandlerHeader(h: Header, ops: seq<Op>): Header {
    if ops == [] then h else ApplyHeaderOp(HandlerHeader(h, ops[..|ops| - 1]), ops[|ops| - 1])
  }

  /** The body bytes the handler writes with `ops`, in order. */
  function BodyOfOps(ops: seq<Op>): seq<byte> {
    if ops == [] then []
    else
      var last := ops[|ops| - 1];
      BodyOfOps(ops[..|ops| - 1]) + (if last.CallWrite? then last.data else [])
  }

  /** The position of the handler's first sending call. */
  function FirstSend(ops: seq<Op>): (r: Option<nat>)
    ensures r.Some? ==> r.value < |ops| && ops[r.value].Sends()
    ensures r.Some? ==> forall j :: 0 <= j < r.value ==> !ops[j].Sends()
    ensures r.None? <==> forall j :: 0 <= j < |ops| ==> !ops[j].Sends()
  {
    if ops == [] then None
    else match FirstSend(ops[..|ops| - 1])
      case Some(k) => Some(k)
      case None => if ops[|ops| - 1].Sends() then Some(|ops| - 1) else None
  }

  /**
    The calls the original writer sees when the handler writes to it
    directly: each header send carries the handler's header as it then is.
  */
  function DirectCalls(h: Header, ops: seq<Op>): seq<Call> {
    if ops == [] then []
    else
      var prefix := ops[..|ops| - 1];
      DirectCalls(h, prefix) +
        match ops[|ops| - 1]
        case CallWriteHeader(status) => [SendHeader(status, HandlerHeader(h, prefix))]
        case CallWrite(data) => [SendBody(data)]
        case _ => []
  }

  /**
    The shape every decorator keeps: before the header is sent nothing has
    reached the underlying writer or the codec; afterwards the trace starts
    with the one header send and holds only body writes after it. An
    encoder or decoder hands body bytes to its codec, so its own trace holds
    the header send alone; what the codec writes on is not traced.
  */
  ghost predicate Valid(w: Writer) {
    && (!w.dec.Transforms() ==> w.sink == [])
    && (!w.dec.Passthrough? && !w.wroteHeader ==> w.calls == [])
    && (!w.dec.Passthrough? && w.wroteHeader ==>
          |w.calls| >= 1 && w.calls[0].SendHeader?
          && forall i :: 1 <= i < |w.calls| ==> w.calls[i].SendBody?)
    && (w.dec.Transforms() ==> |w.calls| <= 1 && (w.sink != [] ==> w.wroteHeader))
  }

  /** A body write appended after the header send keeps a decorator valid. */
  lemma AppendBodyValid(w: Writer, data: seq<byte>)
    requires Valid(w) && !w.dec.Passthrough? && !w.dec.Transforms() && w.wroteHeader
    ensures Valid(w.(calls := w.calls + [SendBody(data)]))
  {
    var calls := w.calls + [SendBody(data)];
    forall i | 1 <= i < |calls|
      ensures calls[i].SendBody?
    {
      if i < |w.calls| {
        assert calls[i] == w.calls[i];
      }
    }
  }

  /** A write keeps a decorator valid. */
  lemma WriteValid(w: Writer, data: seq<byte>)
    requires Valid(w)
    ensures Valid(Write(w, data))
  {
    if !w.dec.Passthrough? {
      var w1 := if w.wroteHeader then w else WriteHeader(w, StatusOK);
      assert Valid(w1) && w1.wroteHeader && w1.dec == w.dec;
      if w.dec.Transforms() {
        assert Write(w, data) == w1.(sink := w1.sink + data);
      } else {
        AppendBodyValid(w1, data);
        assert Write(w, data) == w1.(calls := w1.calls + [SendBody(data)]);
      }
    }
  }

  lemma StepValid(w: Writer, op: Op)
    requires Valid(w)
    ensures Valid(Step(w, op))
  {
    match op
    case CallWriteHeader(status) =>
      assert Step(w, op) == WriteHeader(w, status);
    case CallWrite(data) =>
      WriteValid(w, data);
      assert Step(w, op) == Write(w, data);
    case _ =>
      var w' := Step(w, op);
      assert w'.dec == w.dec && w'.wroteHeader == w.wroteHeader && w'.calls == w.calls && w'.sink == w.sink;
  }

  /** Every sequence of handler calls keeps a fresh writer valid. */
  lemma {:induction false} RunValid(w: Writer, ops: seq<Op>)
    requires Valid(w)
    ensures Valid(Run(w, ops))
  {
    if ops != [] {
      RunValid(w, ops[..|ops| - 1]);
      StepValid(Run(w, ops[..|ops| - 1]), ops[|ops| - 1]);
    }
  }

  /** A trace of body writes holds no header send. */
  lemma {:induction false} CountHeadersOfBodies(calls: seq<Call>)
    requires forall i :: 0 <= i < |calls| ==> calls[i].SendBody?
    ensures CountHeaders(calls) == 0
  {
    if calls != [] {
      CountHeadersOfBodies(calls[..|calls| - 1]);
    }
  }

  /** Counting header sends over a trace split after its first call. */
  lemma {:induction false} CountHeadersSplit(calls: seq<Call>)
    requires calls != []
    ensures CountHeaders(calls) == (if calls[0].SendHeader? then 1 else 0) + CountHeaders(calls[1..])
  {
    if |calls| > 1 {
      CountHeadersSplit(calls[..|calls| - 1]);
      assert calls[..|calls| - 1][1..] == calls[1..][..|calls| - 2];
    }
  }

  /**
    Whatever the handler does, a decorator sends the underlying header at
    most once, and exactly once when its flag says the header is sent.
  */
  lemma HeaderSentAtMostOnce(dec: Decorator, h: Header, ops: seq<Op>)
    requires !dec.Passthrough?
    ensures CountHeaders(Run(NewWriter(dec, h), ops).calls) <= 1
    ensures CountHeaders(Run(NewWriter(dec, h), ops).calls) == 1 <==> Run(NewWriter(dec, h), ops).wroteHeader
  {
    var w := Run(NewWriter(dec, h), ops);
    RunValid(NewWriter(dec, h), ops);
    if w.wroteHeader {
      CountHeadersSplit(w.calls);
      CountHeadersOfBodies(w.calls[1..]);
    }
  }

  /**
    Body bytes reach their sink in the order the handler writes them,
    nothing added and nothing lost.
  */
  lemma {:induction false} RunDeliversInOrder(w: Writer, ops: seq<Op>)
    ensures Delivered(Run(w, ops)) == Delivered(w) + BodyOfOps(ops)
  {
    if ops != [] {
      var prefix := ops[..|ops| - 1];
      RunDeliversInOrder(w, prefix);
      var w0 := Run(w, prefix);
      var op := ops[|ops| - 1];
      match op
      case CallWriteHeader(status) =>
        if !w0.dec.Passthrough? && !w0.wroteHeader {
          assert Delivered(WriteHeader(w0, status)) == Delivered(w0) by {
            if !w0.dec.Transforms() {
              var c := WriteHeader(w0, status).calls;
              assert c[..|c| - 1] == w0.calls;
            }
          }
        } else if w0.dec.Passthrough? {
          var c := WriteHeader(w0, status).calls;
          assert c[..|c| - 1] == w0.calls;
        }
      case CallWrite(data) =>
      case _ =>
    }
  }

  /** Once a decorator has sent its header, further calls keep the trace's first call. */
  lemma {:induction false} RunKeepsFirstCall(w: Writer, ops: seq<Op>)
    requires !w.dec.Passthrough? && w.wroteHeader && w.calls != []
    ensures Run(w, ops).wroteHeader
    ensures Run(w, ops).calls != [] && Run(w, ops).calls[0] == w.calls[0]
  {
    if ops != [] {
      RunKeepsFirstCall(w, ops[..|ops| - 1]);
    }
  }

  /**
    The header a decorator sends is its header mutation applied to the
    handler's header as it stands at the handler's first sending call, with
    that call's status (200 for a write); before that call nothing is sent
    and the header is the handler's own.
  */
  lemma {:induction false} SentHeaderIsPrepared(dec: Decorator, h: Header, ops: seq<Op>)
    requires !dec.Passthrough?
    ensures FirstSend(ops).None? ==>
      && Run(NewWriter(dec, h), ops).calls == []
      && !Run(NewWriter(dec, h), ops).wroteHeader
      && Run(NewWriter(dec, h), ops).header == HandlerHeader(h, ops)
    ensures FirstSend(ops).Some? ==>
      var k := FirstSend(ops).value;
      && Run(NewWriter(dec, h), ops).calls != []
      && Run(NewWriter(dec, h), ops).calls[0]
         == SendHeader(ops[k].Status(), PrepareHeader(dec, HandlerHeader(h, ops[..k])))
  {
    if ops != [] {
      var prefix := ops[..|ops| - 1];
      SentHeaderIsPrepared(dec, h, prefix);
      var w0 := Run(NewWriter(dec, h), prefix);
      RunValid(NewWriter(dec, h), prefix);
      match FirstSend(prefix)
      case Some(k) =>
        assert prefix[..k] == ops[..k];
        RunKeepsFirstCall(w0, [ops[|ops| - 1]]);
        assert Run(w0, [ops[|ops| - 1]]) == Step(w0, ops[|ops| - 1]) by {
          assert [ops[|ops| - 1]][..0] == [];
        }
      case None =>
        assert prefix == ops[..|ops| - 1];
    }
  }

  /**
    After the header is sent, the encoder's header has no Content-Length
    value and has Content-Encoding set to the encoder's token.
  */
  lemma EncoderSentHeader(token: string, level: int, h: Header, ops: seq<Op>)
    requires Run(NewWriter(Encoder(token, level), h), ops).wroteHeader
    ensures Run(NewWriter(Encoder(token, level), h), ops).calls != []
    ensures Run(NewWriter(Encoder(token, level), h), ops).calls[0].SendHeader?
    ensures Get(Run(NewWriter(Encoder(token, level), h), ops).calls[0].header, ContentLength) == ""
    ensures Get(Run(NewWriter(Encoder(token, level), h), ops).calls[0].header, ContentEncoding) == token
  {
    SentHeaderIsPrepared(Encoder(token, level), h, ops);
    RunValid(NewWriter(Encoder(token, level), h), ops);
  }

  /**
    After the header is sent, the decoder's header holds the override
    values (other than Content-Length and Content-Encoding), no
    Content-Length value and no Content-Encoding.
  */
  lemma DecoderSentHeader(token: string, overrides: Header, h: Header, ops: seq<Op>)
    requires Run(NewWriter(Decoder(token, overrides), h), ops).wroteHeader
    ensures Run(NewWriter(Decoder(token, overrides), h), ops).calls != []
    ensures Run(NewWriter(Decoder(token, overrides), h), ops).calls[0].SendHeader?
    ensures
      var sent := Run(NewWriter(Decoder(token, overrides), h), ops).calls[0].header;
      && ContentEncoding !in sent
      && Get(sent, ContentLength) == ""
      && forall k :: k in overrides && k != ContentEncoding && k != ContentLength ==> k in sent && sent[k] == overrides[k]
  {
    SentHeaderIsPrepared(Decoder(token, overrides), h, ops);
    RunValid(NewWriter(Decoder(token, overrides), h), ops);
  }

  /**
    The overlay writer's sent header replaces every override key and leaves
    every other key of the handler's header, Content-Length included, as it
    was at the first sending call.
  */
  lemma OverlaySentHeader(overrides: Header, h: Header, ops: seq<Op>)
    requires FirstSend(ops).Some?
    ensures Run(NewWriter(Overlayer(overrides), h), ops).calls != []
    ensures Run(NewWriter(Overlayer(overrides), h), ops).calls[0].SendHeader?
    ensures
      var before := HandlerHeader(h, ops[..FirstSend(ops).value]);
      var sent := Run(NewWriter(Overlayer(overrides), h), ops).calls[0].header;
      && sent.Keys == before.Keys + overrides.Keys
      && (forall k :: k in overrides ==> sent[k] == overrides[k])
      && (forall k :: k in before && k !in overrides ==> sent[k] == before[k])
  {
    SentHeaderIsPrepared(Overlayer(overrides), h, ops);
  }

  /**
    A handler given the original writer is served as if there were no
    middleware: the underlying writer sees exactly the handler's own calls
    and the header is never touched.
  */
  lemma {:induction false} PassthroughIsDirect(h: Header, ops: seq<Op>)
    ensures Run(NewWriter(Passthrough, h), ops).calls == DirectCalls(h, ops)
    ensures Run(NewWriter(Passthrough, h), ops).header == HandlerHeader(h, ops)
  {
    if ops != [] {
      PassthroughIsDirect(h, ops[..|ops| - 1]);
    }
  }
}
