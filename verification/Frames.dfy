/**
 Frames end to end: the length put in front, streams of frames split again, and
 a frame read back from the bytes of its request or response.
 */
module Frames {
  import opened Base
  import opened Schema
  import opened Types
  import opened Grammar
  import opened RoundTrip
  import opened Messages
  import opened FrameGrammar
  import opened Buffers
  import Encoder
  import Decoder

  const I32_MAX := 0x7fff_ffff

  /** A payload with its length in front of it. */
  function Framed(payload: Bytes): (r: Result<Bytes>) {
    if |payload| > I32_MAX then Err(TryFromInt)
    else
      assert FitsSigned(|payload|, 4) by { Pow256Values(); }
      Ok(Signed(|payload|, 4) + payload)
  }

  /** `fix_length`: the four bytes in front are replaced by the length of the rest. */
  method FixLength(encoded: BytesMut) returns (r: Result<Bytes>)
    requires encoded.Valid() && |encoded.contents| >= 4
    ensures r == Framed(encoded.contents[4..])
  {
    var split := encoded.SplitOff(4);
    var rest := split.1;
    assert rest.contents == encoded.contents[4..];
    var size := BytesMut([], split.0.capacity);
    if |rest.contents| > I32_MAX {
      return Err(TryFromInt);
    }
    Pow256Values();
    size := size.Put(Signed(|rest.contents|, 4));
    size := size.Unsplit(rest);
    assert size.contents == Signed(|rest.contents|, 4) + rest.contents;
    r := Ok(size.contents);
  }

  // ---------------------------------------------------------------------
  // Splitting a stream

  /** The server's `frame_length`: the whole frame's length, or nothing if the prefix is negative. */
  function FrameLength(prefix: Bytes): (r: Option<nat>)
    requires |prefix| == 4
    ensures r.Some? ==> r.value >= 4
  {
    var n := FromSigned(prefix);
    if n < 0 then None else Some(n + 4)
  }

  const USIZE_LIMIT := 0x1_0000_0000_0000_0000

  /** The client's: an `as usize` and an addition, both of which wrap in a release build. */
  function ClientFrameLength(prefix: Bytes): (r: nat)
    requires |prefix| == 4
  {
    (FromSigned(prefix) % USIZE_LIMIT + 4) % USIZE_LIMIT
  }

  /** The two agree exactly on the prefixes that are lengths; the client takes the others for something else. */
  lemma LengthsAgree(prefix: Bytes)
    requires |prefix| == 4
    ensures FrameLength(prefix) == Some(ClientFrameLength(prefix)) <==> FromSigned(prefix) >= 0
  {
    FromBigEndianBound(prefix);
    Pow256Values();
  }

  /** Of every number that a prefix can hold: a length if it is not negative, and refused if it is. */
  lemma FrameLengthOf(n: int)
    requires FitsSigned(n, 4)
    ensures FrameLength(Signed(n, 4)) == if n < 0 then None else Some(n + 4)
    ensures 0 <= n ==> ClientFrameLength(Signed(n, 4)) == n + 4
  {
    Pow256Values();
    SignedRoundTrip(n, 4);
  }

  /** One frame off the front of a stream. */
  function NextFrame(stream: Bytes): (r: Result<Parsed<Bytes>>) {
    var prefix :- Take(stream, 4);
    match FrameLength(prefix.value)
    case None => Err(TryFromInt)
    case Some(length) => Take(stream, length)
  }

  lemma NextFrameProgress(stream: Bytes)
    requires NextFrame(stream).Ok?
    ensures NextFrame(stream).value.value + NextFrame(stream).value.rest == stream
    ensures |NextFrame(stream).value.rest| <= |stream| - 4
  {
  }

  function SplitFrames(stream: Bytes): (r: Result<seq<Bytes>>)
    decreases |stream|
  {
    if stream == [] then Ok([])
    else
      var first :- NextFrame(stream);
      NextFrameProgress(stream);
      var others :- SplitFrames(first.rest);
      Ok([first.value] + others)
  }

  function Join(frames: seq<Bytes>): (r: Bytes) {
    if frames == [] then [] else frames[0] + Join(frames[1..])
  }

  predicate IsFramed(frame: Bytes) {
    |frame| >= 4 && Framed(frame[4..]) == Ok(frame)
  }

  lemma FramedIsFramed(payload: Bytes)
    requires Framed(payload).Ok?
    ensures IsFramed(Framed(payload).value)
  {
    Pow256Values();
    assert Framed(payload).value[4..] == payload;
  }

  lemma NextFrameOf(frame: Bytes, rest: Bytes)
    requires IsFramed(frame)
    ensures NextFrame(frame + rest) == Ok(Parsed(frame, rest))
  {
    Pow256Values();
    var payload := frame[4..];
    var prefix := Signed(|payload|, 4);
    assert frame + rest == prefix + (payload + rest);
    TakeFront(prefix, payload + rest);
    SignedRoundTrip(|payload|, 4);
    TakeFront(frame, rest);
  }

  /** Whatever frames were sent, splitting the stream gives the same frames back. */
  lemma {:induction false} SplitUndoesJoin(frames: seq<Bytes>)
    requires forall i :: 0 <= i < |frames| ==> IsFramed(frames[i])
    ensures SplitFrames(Join(frames)) == Ok(frames)
  {
    if frames != [] {
      NextFrameOf(frames[0], Join(frames[1..]));
      SplitUndoesJoin(frames[1..]);
      assert frames == [frames[0]] + frames[1..];
    }
  }

  const ISIZE_MAX := 0x7fff_ffff_ffff_ffff

  /** The client's way to take a frame: the prefix is copied to the front of a buffer of the whole length. */
  function ClientNextFrame(stream: Bytes): (r: Result<Parsed<Bytes>>) {
    var prefix :- Take(stream, 4);
    var length := ClientFrameLength(prefix.value);
    if length > ISIZE_MAX then Err(CapacityOverflow)
    else if length < 4 then Err(OutOfRange)
    else Take(stream, length)
  }

  function ClientSplitFrames(stream: Bytes): (r: Result<seq<Bytes>>)
    decreases |stream|
  {
    if stream == [] then Ok([])
    else
      var first :- ClientNextFrame(stream);
      var others :- ClientSplitFrames(first.rest);
      Ok([first.value] + others)
  }

  /** It takes the same frame as the server, unless the prefix is negative. */
  lemma ClientTakesTheSame(stream: Bytes)
    requires |stream| >= 4 && FromSigned(stream[..4]) >= 0
    ensures ClientNextFrame(stream) == NextFrame(stream)
  {
    LengthsAgree(stream[..4]);
    FromBigEndianBound(stream[..4]);
    Pow256Values();
  }

  /** Splitting what was sent by the client's length gives the same frames back, too. */
  lemma {:induction false} ClientSplitUndoesJoin(frames: seq<Bytes>)
    requires forall i :: 0 <= i < |frames| ==> IsFramed(frames[i])
    ensures ClientSplitFrames(Join(frames)) == Ok(frames)
  {
    if frames != [] {
      var rest := Join(frames[1..]);
      NextFrameOf(frames[0], rest);
      ClientTakesTheSame(frames[0] + rest);
      ClientSplitUndoesJoin(frames[1..]);
      assert frames == [frames[0]] + frames[1..];
    }
  }

  /**
   A negative prefix: refused by the server, and a panic of the client, to which it is a
   frame too short to hold its own prefix, or one longer than any buffer.
   */
  lemma NegativePrefix(n: int, rest: Bytes)
    requires FitsSigned(n, 4) && n < 0
    ensures var prefix := Signed(n, 4);
            && FrameLength(prefix) == None && NextFrame(prefix + rest) == Err(TryFromInt)
            && ClientFrameLength(prefix) == (if n >= -4 then n + 4 else USIZE_LIMIT + n + 4)
            && ClientNextFrame(prefix + rest) == Err(if n >= -4 then OutOfRange else CapacityOverflow)
  {
    Pow256Values();
    SignedRoundTrip(n, 4);
    TakeFront(Signed(n, 4), rest);
  }

  const CHUNK := 64 * 1024

  /** `read_frame`: the rest of a frame in chunks, committing no more than has arrived and one chunk. */
  method ReadFrame(prefix: Bytes, stream: Bytes) returns (r: Result<Bytes>, rest: Bytes)
    requires |prefix| == 4
    ensures match NextFrame(prefix + stream)
            case Ok(p) => r == Ok(p.value) && rest == p.rest
            case Err(e) => r == Err(e)
  {
    rest := stream;
    TakeFront(prefix, stream);
    var length := FrameLength(prefix);
    if length.None? {
      return Err(TryFromInt), rest;
    }
    var request := prefix;
    while |request| < length.value
      invariant |request| <= length.value && request + rest == prefix + stream
    {
      var filled := |request|;
      var want := if length.value <= filled + CHUNK then length.value else filled + CHUNK;
      if |rest| < want - filled {
        return Err(Io), rest;
      }
      request := request + rest[..want - filled];
      rest := rest[want - filled..];
    }
    TakeFront(request, rest);
    r := Ok(request);
  }

  // ---------------------------------------------------------------------
  // A frame there and back

  /** `Frame::request` and `Frame::response`: the size is written as zero, then fixed. */
  function EncodeFrame(mm: MessageMeta, version: int, header: Header, body: Value): (r: Result<Bytes>)
    requires IsHeader(header)
  {
    assert FitsSigned(0, 4);
    var wire :- WireFrame(mm, version, Frame(0, header, body));
    Framed(wire[4..])
  }

  /** A request that the encoder can be given. */
  predicate IsWritableRequest(
    requests: map<int, MessageMeta>, commons: map<int, set<string>>, header: Header, body: Value)
  {
    && header.Request? && IsHeader(header) && header.apiKey in requests
    && requests[header.apiKey].apiKey == header.apiKey
    && IsBody(requests[header.apiKey], CommonOf(commons, header.apiKey), body)
  }

  /** A response that it can. */
  predicate IsWritableResponse(
    responses: map<int, MessageMeta>, commons: map<int, set<string>>, apiKey: int, header: Header, body: Value)
  {
    && header.Response? && IsHeader(header) && apiKey in responses && responses[apiKey].apiKey == apiKey
    && IsBody(responses[apiKey], CommonOf(commons, apiKey), body)
  }

  /** And a request that the decoder can. */
  predicate IsRequest(
    requests: map<int, MessageMeta>, commons: map<int, set<string>>, header: Header, body: Value)
  {
    && IsWritableRequest(requests, commons, header, body)
    && IsMessage(requests[header.apiKey], CommonOf(commons, header.apiKey), header.apiVersion, body)
  }

  /** The encoder writes a request frame of `EncodeFrame`, whatever capacity it is given. */
  method EncodeRequest(
    requests: map<int, MessageMeta>, commons: map<int, set<string>>, header: Header, body: Value, capacity: nat)
    returns (r: Result<Bytes>)
    requires IsWritableRequest(requests, commons, header, body)
    ensures r == EncodeFrame(requests[header.apiKey], header.apiVersion, header, body)
  {
    var mm := requests[header.apiKey];
    var types := FieldTypes(CommonOf(commons, header.apiKey), None, mm.fields);
    var encoder := new Encoder.Encoder.ForRequest(BytesMut([], capacity), requests);
    var f := Frame(0, header, body);
    var done := encoder.SerializeFrame(f, mm.name, types, mm, CommonOf(commons, header.apiKey), header.apiVersion);
    if done.Err? {
      return Err(done.error);
    }
    assert [] + WireFrame(mm, header.apiVersion, f).value == WireFrame(mm, header.apiVersion, f).value;
    r := FixLength(encoder.working);
  }

  method EncodeResponse(
    responses: map<int, MessageMeta>, commons: map<int, set<string>>, apiKey: int, version: int, header: Header,
    body: Value, capacity: nat)
    returns (r: Result<Bytes>)
    requires IsWritableResponse(responses, commons, apiKey, header, body)
    ensures r == EncodeFrame(responses[apiKey], version, header, body)
  {
    var mm, common := responses[apiKey], CommonOf(commons, apiKey);
    var types := FieldTypes(common, None, mm.fields);
    var encoder := new Encoder.Encoder.ForResponse(BytesMut([], capacity), responses, apiKey, version);
    var f := Frame(0, header, body);
    var done := encoder.SerializeFrame(f, mm.name, types, mm, common, version);
    if done.Err? {
      return Err(done.error);
    }
    assert [] + WireFrame(mm, version, f).value == WireFrame(mm, version, f).value;
    r := FixLength(encoder.working);
  }

  method DecodeRequest(requests: map<int, MessageMeta>, commons: map<int, set<string>>, input: Bytes)
    returns (r: Result<Frame>)
    requires forall key :: key in requests ==>
               requests[key].apiKey == key && WellFormed(requests[key], CommonOf(commons, key))
    ensures match ParseRequestFrame(requests, commons, input)
            case Ok(p) => r == Ok(p.value)
            case Err(e) => r == Err(e)
  {
    var decoder := new Decoder.Decoder.ForRequest(input, requests);
    r := decoder.DeserializeRequestFrame(commons);
  }

  method DecodeResponse(
    responses: map<int, MessageMeta>, commons: map<int, set<string>>, apiKey: int, version: int, input: Bytes)
    returns (r: Result<Frame>)
    requires forall key :: key in responses ==>
               responses[key].apiKey == key && WellFormed(responses[key], CommonOf(commons, key))
    ensures match ParseResponseFrame(responses, commons, apiKey, version, input)
            case Ok(p) => r == Ok(p.value)
            case Err(e) => r == Err(e)
  {
    var decoder := new Decoder.Decoder.ForResponse(input, responses, apiKey, version);
    r := decoder.DeserializeResponseFrame(commons, responses, apiKey, version);
  }

  lemma IntRoundTrip(n: int, s: Scalar, rest: Bytes)
    requires s.Int16? || s.Int32?
    requires FitsSigned(n, Width(s))
    ensures ReadInt(s, Signed(n, Width(s)) + rest) == Ok(Parsed(n, rest))
  {
    ScalarRoundTrip(s, VInt(n), rest);
  }

  lemma ClientIdRoundTrip(clientId: Option<Bytes>, rest: Bytes)
    requires WireClientId(clientId).Ok? && ValidClientId(clientId)
    ensures ReadClientId(WireClientId(clientId).value + rest) == Ok(Parsed(clientId, rest))
  {
    match clientId {
      case None =>
        MinusOne2();
        SignedRoundTrip(-1, 2);
        TakeFront([255, 255], rest);
      case Some(s) =>
        var prefix := StringPrefix(false, |s|).value;
        Associate(prefix, s, rest);
        StringLengthRoundTrip(false, |s|, s + rest);
        ContentRoundTrip(s, rest);
    }
  }

  lemma EmptyTagsSkipped(flexible: bool, rest: Bytes)
    ensures SkipTags(flexible, (if flexible then [0] else []) + rest) == Ok(rest)
  {
    if flexible {
      Encoder.NoTags();
      TagsRoundTrip([], rest);
    } else {
      assert [] + rest == rest;
    }
  }

  lemma RequestHeaderRoundTrip(requests: map<int, MessageMeta>, h: Header, rest: Bytes)
    requires h.Request? && IsHeader(h) && h.apiKey in requests
    requires WireHeader(h.apiKey, requests[h.apiKey].flexible.Within(h.apiVersion), h).Ok?
    ensures var flexible := requests[h.apiKey].flexible.Within(h.apiVersion);
            ParseRequestHeader(requests, WireHeader(h.apiKey, flexible, h).value + rest) == Ok(Parsed(h, rest))
  {
    var flexible := requests[h.apiKey].flexible.Within(h.apiVersion);
    var tags := if flexible then [0] else [];
    var client := WireClientId(h.clientId).value;
    var key, version, correlation := Signed(h.apiKey, 2), Signed(h.apiVersion, 2), Signed(h.correlationId, 4);
    assert WireHeader(h.apiKey, flexible, h).value + rest
        == key + (version + (correlation + (client + (tags + rest))));
    IntRoundTrip(h.apiKey, Int16, version + (correlation + (client + (tags + rest))));
    IntRoundTrip(h.apiVersion, Int16, correlation + (client + (tags + rest)));
    IntRoundTrip(h.correlationId, Int32, client + (tags + rest));
    ClientIdRoundTrip(h.clientId, tags + rest);
    EmptyTagsSkipped(flexible, rest);
  }

  lemma ResponseHeaderRoundTrip(responses: map<int, MessageMeta>, apiKey: int, version: int, h: Header, rest: Bytes)
    requires h.Response? && IsHeader(h) && apiKey in responses
    ensures var flexible := responses[apiKey].flexible.Within(version);
            ParseResponseHeader(responses, apiKey, version, WireHeader(apiKey, flexible, h).value + rest)
            == Ok(Parsed(h, rest))
  {
    var flexible := responses[apiKey].flexible.Within(version) && apiKey != API_VERSIONS;
    var tags := if flexible then [0] else [];
    Associate(Signed(h.correlationId, 4), tags, rest);
    IntRoundTrip(h.correlationId, Int32, tags + rest);
    EmptyTagsSkipped(flexible, rest);
  }

  /** The parts of an encoded frame. */
  lemma EncodedParts(mm: MessageMeta, version: int, h: Header, body: Value, rest: Bytes)
    requires IsHeader(h) && EncodeFrame(mm, version, h, body).Ok?
    ensures var flexible := mm.flexible.Within(version);
            && WireHeader(mm.apiKey, flexible, h).Ok? && WireMessage(mm, version, body).Ok?
            && var frame := EncodeFrame(mm, version, h, body).value;
               var header := WireHeader(mm.apiKey, flexible, h).value;
               && |frame| - 4 <= I32_MAX && FitsSigned(|frame| - 4, 4)
               && frame + rest == Signed(|frame| - 4, 4) + (header + (WireMessage(mm, version, body).value + rest))
  {
    Pow256Values();
    FrameIsItsParts(mm, version, h, body);
    var header := WireHeader(mm.apiKey, mm.flexible.Within(version), h).value;
    var message := WireMessage(mm, version, body).value;
    Associate(header, message, rest);
    Associate(Signed(|header + message|, 4), header + message, rest);
  }

  lemma FrameIsItsParts(mm: MessageMeta, version: int, h: Header, body: Value)
    requires IsHeader(h)
    ensures var header := WireHeader(mm.apiKey, mm.flexible.Within(version), h);
            var message := WireMessage(mm, version, body);
            if header.Err? then EncodeFrame(mm, version, h, body) == Err(header.error)
            else if message.Err? then EncodeFrame(mm, version, h, body) == Err(message.error)
            else EncodeFrame(mm, version, h, body) == Framed(header.value + message.value)
  {
    assert FitsSigned(0, 4);
    var header, message := WireHeader(mm.apiKey, mm.flexible.Within(version), h), WireMessage(mm, version, body);
    if header.Ok? && message.Ok? {
      DropSize(Signed(0, 4), header.value, message.value);
    }
  }

  lemma DropSize(size: Bytes, header: Bytes, message: Bytes)
    requires |size| == 4
    ensures (size + header + message)[4..] == header + message
  {
  }

  /** The size and the header are read back, whatever the body is. */
  lemma RequestStart(requests: map<int, MessageMeta>, header: Header, body: Value, rest: Bytes)
    requires header.Request? && IsHeader(header) && header.apiKey in requests
    requires requests[header.apiKey].apiKey == header.apiKey
    requires EncodeFrame(requests[header.apiKey], header.apiVersion, header, body).Ok?
    ensures var mm, version := requests[header.apiKey], header.apiVersion;
            var frame := EncodeFrame(mm, version, header, body).value;
            && WireMessage(mm, version, body).Ok?
            && ReadSizeAndHeader(requests, frame + rest)
               == Ok(Parsed((|frame| - 4, header), WireMessage(mm, version, body).value + rest))
  {
    var mm, version := requests[header.apiKey], header.apiVersion;
    var frame := EncodeFrame(mm, version, header, body).value;
    EncodedParts(mm, version, header, body, rest);
    var message := WireMessage(mm, version, body).value;
    var wire := WireHeader(mm.apiKey, mm.flexible.Within(version), header).value;
    RequestHeaderRoundTrip(requests, header, message + rest);
    SizeAndHeader(requests, |frame| - 4, wire + (message + rest), header, message + rest);
  }

  lemma SizeAndHeader(requests: map<int, MessageMeta>, size: int, input: Bytes, header: Header, rest: Bytes)
    requires FitsSigned(size, 4) && ParseRequestHeader(requests, input) == Ok(Parsed(header, rest))
    ensures ReadSizeAndHeader(requests, Signed(size, 4) + input) == Ok(Parsed((size, header), rest))
  {
    IntRoundTrip(size, Int32, input);
  }

  /**
   A request frame, encoded and followed by anything, is read back with its
   length in place of its size and the body normalised, if and only if the body
   is decodable.
   */
  lemma RequestRoundTrip(
    requests: map<int, MessageMeta>, commons: map<int, set<string>>, header: Header, body: Value, rest: Bytes)
    requires IsRequest(requests, commons, header, body)
    requires EncodeFrame(requests[header.apiKey], header.apiVersion, header, body).Ok?
    ensures var mm, version := requests[header.apiKey], header.apiVersion;
            var frame := EncodeFrame(mm, version, header, body).value;
            ParseRequestFrame(requests, commons, frame + rest)
            == Ok(Parsed(Frame(|frame| - 4, header, Normal(mm, version, body)), rest))
            <==> Decodable(mm, version, body)
  {
    var mm, version := requests[header.apiKey], header.apiVersion;
    RequestStart(requests, header, body, rest);
    MessageRoundTrip(mm, CommonOf(commons, header.apiKey), version, body, rest);
  }

  lemma ResponseRoundTrip(
    responses: map<int, MessageMeta>, commons: map<int, set<string>>, apiKey: int, version: int, header: Header,
    body: Value, rest: Bytes)
    requires IsWritableResponse(responses, commons, apiKey, header, body)
    requires IsMessage(responses[apiKey], CommonOf(commons, apiKey), version, body)
    requires EncodeFrame(responses[apiKey], version, header, body).Ok?
    ensures var mm := responses[apiKey];
            var frame := EncodeFrame(mm, version, header, body).value;
            ParseResponseFrame(responses, commons, apiKey, version, frame + rest)
            == Ok(Parsed(Frame(|frame| - 4, header, Normal(mm, version, body)), rest))
            <==> Decodable(mm, version, body)
  {
    ResponseStart(responses, apiKey, version, header, body, rest);
    MessageRoundTrip(responses[apiKey], CommonOf(commons, apiKey), version, body, rest);
  }

  lemma ResponseStart(
    responses: map<int, MessageMeta>, apiKey: int, version: int, header: Header, body: Value, rest: Bytes)
    requires header.Response? && IsHeader(header) && apiKey in responses && responses[apiKey].apiKey == apiKey
    requires EncodeFrame(responses[apiKey], version, header, body).Ok?
    ensures var mm := responses[apiKey];
            var frame := EncodeFrame(mm, version, header, body).value;
            && WireMessage(mm, version, body).Ok?
            && ReadSizeAndResponseHeader(responses, apiKey, version, frame + rest)
               == Ok(Parsed((|frame| - 4, header), WireMessage(mm, version, body).value + rest))
  {
    var mm := responses[apiKey];
    var frame := EncodeFrame(mm, version, header, body).value;
    EncodedParts(mm, version, header, body, rest);
    var message := WireMessage(mm, version, body).value;
    var wire := WireHeader(apiKey, mm.flexible.Within(version), header).value;
    IntRoundTrip(|frame| - 4, Int32, wire + (message + rest));
    ResponseHeaderRoundTrip(responses, apiKey, version, header, message + rest);
  }
}
