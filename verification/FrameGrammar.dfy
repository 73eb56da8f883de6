/**
 The wire format of a frame: a length, a header and a message.
 */
module FrameGrammar {
  import opened Base
  import opened Schema
  import opened Types
  import opened Grammar
  import opened Messages
  import Utf8

  datatype Header =
    | Request(apiKey: int, apiVersion: int, correlationId: int, clientId: Option<Bytes>)
    | Response(correlationId: int)

  datatype Frame = Frame(size: int, header: Header, body: Value)

  /** `ApiVersions`: its response header never carries a tag buffer. */
  const API_VERSIONS := 18

  predicate ValidClientId(clientId: Option<Bytes>) {
    clientId.Some? ==> Utf8.IsValid(clientId.value)
  }

  predicate IsHeader(h: Header) {
    && FitsSigned(h.correlationId, 4)
    && (h.Request? ==> FitsSigned(h.apiKey, 2) && FitsSigned(h.apiVersion, 2) && ValidClientId(h.clientId))
  }

  function WireClientId(clientId: Option<Bytes>): (r: Result<Bytes>) {
    match clientId
    case None => Ok([255, 255])
    case Some(s) =>
      var prefix :- StringPrefix(false, |s|);
      Ok(prefix + s)
  }

  /** `apiKey` and `flexible` are those of the message the header goes with. */
  function WireHeader(apiKey: int, flexible: bool, h: Header): (r: Result<Bytes>)
    requires IsHeader(h)
  {
    match h
    case Request(key, version, correlation, clientId) =>
      var client :- WireClientId(clientId);
      Ok(Signed(key, 2) + Signed(version, 2) + Signed(correlation, 4) + client + (if flexible then [0] else []))
    case Response(correlation) =>
      Ok(Signed(correlation, 4) + (if flexible && apiKey != API_VERSIONS then [0] else []))
  }

  /** The frame as the encoder leaves it: the size is whatever the frame said. */
  function WireFrame(mm: MessageMeta, version: int, f: Frame): (r: Result<Bytes>)
    requires IsHeader(f.header) && FitsSigned(f.size, 4)
  {
    var header :- WireHeader(mm.apiKey, mm.flexible.Within(version), f.header);
    var body :- WireMessage(mm, version, f.body);
    Ok(Signed(f.size, 4) + header + body)
  }

  // ---------------------------------------------------------------------
  // Reading a frame

  function ReadInt(s: Scalar, input: Bytes): (r: Result<Parsed<int>>)
    requires s.Int16? || s.Int32?
  {
    var p :- ReadScalar(s, input);
    Ok(Parsed(p.value.n, p.rest))
  }

  function ReadClientId(input: Bytes): (r: Result<Parsed<Option<Bytes>>>) {
    var p :- ReadNullableString(false, input);
    Ok(Parsed(if p.value.VNone? then None else Some(p.value.some.s), p.rest))
  }

  /** A header's tag buffer is read and dropped. */
  function SkipTags(flexible: bool, input: Bytes): (r: Result<Bytes>) {
    if !flexible then Ok(input)
    else
      var tags :- ReadTags(input);
      Ok(tags.rest)
  }

  /** The message with a key, if there is one. */
  function MessageOf(messages: map<int, MessageMeta>, apiKey: int): (r: Option<MessageMeta>) {
    if apiKey in messages then Some(messages[apiKey]) else None
  }

  predicate IsFlexibleMessage(messages: map<int, MessageMeta>, apiKey: int, version: int) {
    apiKey in messages && messages[apiKey].flexible.Within(version)
  }

  /** The API key, the version and the correlation id of a request. */
  function ReadNumbers(input: Bytes): (r: Result<Parsed<(int, int, int)>>) {
    var key :- ReadInt(Int16, input);
    var version :- ReadInt(Int16, key.rest);
    var correlation :- ReadInt(Int32, version.rest);
    Ok(Parsed((key.value, version.value, correlation.value), correlation.rest))
  }

  function ReadClientIdAndTags(flexible: bool, input: Bytes): (r: Result<Parsed<Option<Bytes>>>) {
    var client :- ReadClientId(input);
    var rest :- SkipTags(flexible, client.rest);
    Ok(Parsed(client.value, rest))
  }

  function ParseRequestHeader(requests: map<int, MessageMeta>, input: Bytes): (r: Result<Parsed<Header>>) {
    var numbers :- ReadNumbers(input);
    var (key, version, correlation) := numbers.value;
    var client :- ReadClientIdAndTags(IsFlexibleMessage(requests, key, version), numbers.rest);
    Ok(Parsed(Request(key, version, correlation, client.value), client.rest))
  }

  function ParseResponseHeader(responses: map<int, MessageMeta>, apiKey: int, version: int, input: Bytes)
    : (r: Result<Parsed<Header>>)
  {
    var correlation :- ReadInt(Int32, input);
    var flexible := IsFlexibleMessage(responses, apiKey, version) && apiKey != API_VERSIONS;
    var rest :- SkipTags(flexible, correlation.rest);
    Ok(Parsed(Response(correlation.value), rest))
  }

  function CommonOf(commons: map<int, set<string>>, apiKey: int): (r: set<string>) {
    if apiKey in commons then commons[apiKey] else {}
  }

  function ReadSizeAndHeader(requests: map<int, MessageMeta>, input: Bytes): (r: Result<Parsed<(int, Header)>>)
    ensures r.Ok? ==> r.value.value.1.Request?
  {
    var size :- ReadInt(Int32, input);
    var header :- ParseRequestHeader(requests, size.rest);
    Ok(Parsed((size.value, header.value), header.rest))
  }

  function ParseRequestFrame(requests: map<int, MessageMeta>, commons: map<int, set<string>>, input: Bytes)
    : (r: Result<Parsed<Frame>>)
  {
    var start :- ReadSizeAndHeader(requests, input);
    var (size, header) := start.value;
    var key := header.apiKey;
    if key !in requests then Err(UnknownContainer)
    else
      var body :- ParseMessage(requests[key], CommonOf(commons, key), header.apiVersion, start.rest);
      Ok(Parsed(Frame(size, header, body.value), body.rest))
  }

  function ReadSizeAndResponseHeader(responses: map<int, MessageMeta>, apiKey: int, version: int, input: Bytes)
    : (r: Result<Parsed<(int, Header)>>)
  {
    var size :- ReadInt(Int32, input);
    var header :- ParseResponseHeader(responses, apiKey, version, size.rest);
    Ok(Parsed((size.value, header.value), header.rest))
  }

  /** A response does not say what it answers: the key and the version are those of the request. */
  function ParseResponseFrame(
    responses: map<int, MessageMeta>, commons: map<int, set<string>>, apiKey: int, version: int, input: Bytes)
    : (r: Result<Parsed<Frame>>)
  {
    var start :- ReadSizeAndResponseHeader(responses, apiKey, version, input);
    if apiKey !in responses then Err(UnknownContainer)
    else
      var body :- ParseMessage(responses[apiKey], CommonOf(commons, apiKey), version, start.rest);
      Ok(Parsed(Frame(start.value.0, start.value.1, body.value), body.rest))
  }
}
