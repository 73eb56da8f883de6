/**
 A connection as the object that it is, which marks itself while a round trip is on
 its way; what happens each time it waits is a schedule.
 */
module Connections {
  import opened Base
  import opened Frames
  import opened Pool
  import opened Schedules

  class Connection {
    var stream: Wire
    var correlationId: int
    var dirty: bool
    ghost var done: seq<Exchange>

    ghost predicate Valid()
      reads this
    {
      && done <= stream.served
      && (!dirty ==> Quiet(stream, done) && correlationId == |done|)
    }

    constructor ()
      ensures Valid() && !dirty && done == []
    {
      stream := SILENT;
      correlationId := 0;
      dirty := false;
      done := [];
    }

    /** The connection as a link, in the middle of a round trip or not. */
    ghost function At(phase: Phase): (l: Link)
      reads this
    {
      Link(dirty, correlationId, phase, stream, done)
    }

    /** Whether the pool may hand this connection out again. */
    method Recycle() returns (accepted: bool)
      requires Valid()
      ensures accepted ==> Quiet(stream, done)
      ensures accepted <==> !dirty
    {
      accepted := !dirty;
    }

    method WriteAll(frame: Bytes, schedule: seq<Moment>) returns (ok: bool, later: seq<Moment>)
      requires IsFramed(frame) && InFlight(stream, done, frame, 0, [])
      modifies this`stream
      ensures done <= stream.served
      ensures ok ==> InFlight(stream, done, frame, |frame|, [])
      ensures Driven(old(At(Writing(frame, 0))), schedule)
              == if ok then Driven(At(Writing(frame, |frame|)), later) else At(Idle)
    {
      var written := 0;
      later := schedule;
      while written < |frame|
        invariant 0 <= written <= |frame| && InFlight(stream, done, frame, written, [])
        invariant Driven(old(At(Writing(frame, 0))), schedule) == Driven(At(Writing(frame, written)), later)
        decreases |later|
      {
        if later == [] || later[0].Stop? {
          DrivenEnds(At(Writing(frame, written)), later);
          return false, later;
        }
        match later[0] {
          case Meanwhile(move) =>
            DrivenMoves(At(Writing(frame, written)), later);
            MoveKeepsInFlight(stream, done, frame, written, [], move);
            stream := Moved(stream, move);
          case Ready(count) =>
            var next := Least(written + count, |frame|);
            DrivenWrites(At(Writing(frame, written)), later, next);
            WriteKeeps(stream, done, frame, written, next);
            stream := stream.(outgoing := stream.outgoing + frame[written..next]);
            written := next;
        }
        later := later[1..];
      }
      ok := true;
    }

    /** More of a response, up to a length. */
    method ReadExact(ghost request: Bytes, got: Bytes, length: nat, schedule: seq<Moment>)
      returns (ok: bool, buffer: Bytes, later: seq<Moment>)
      requires IsFramed(request) && InFlight(stream, done, request, |request|, got) && |got| <= length
      modifies this`stream
      requires Towards(got, length)
      ensures done <= stream.served
      ensures ok ==> |buffer| == length && got <= buffer && InFlight(stream, done, request, |request|, buffer)
      ensures Driven(old(At(Reading(request, got))), schedule)
              == if ok then Driven(At(Reading(request, buffer)), later) else At(Idle)
    {
      buffer := got;
      later := schedule;
      while |buffer| < length
        invariant |buffer| <= length && got <= buffer && Towards(buffer, length)
        invariant Driven(old(At(Reading(request, got))), schedule) == Driven(At(Reading(request, buffer)), later)
        invariant InFlight(stream, done, request, |request|, buffer)
        decreases |later|
      {
        if later == [] || later[0].Stop? {
          DrivenEnds(At(Reading(request, buffer)), later);
          return false, buffer, later;
        }
        match later[0] {
          case Meanwhile(move) =>
            DrivenMoves(At(Reading(request, buffer)), later);
            MoveKeepsInFlight(stream, done, request, |request|, buffer, move);
            stream := Moved(stream, move);
          case Ready(count) =>
            var n := Least(count, Least(|stream.incoming|, length - |buffer|));
            DrivenReads(At(Reading(request, buffer)), later, n);
            ReadKeeps(stream, done, request, buffer, n);
            StillTowards(buffer, stream.incoming[..n], length);
            buffer := buffer + stream.incoming[..n];
            stream := stream.(incoming := stream.incoming[n..]);
        }
        later := later[1..];
      }
      ok := true;
    }

    /**
     One round trip, whatever happens while it waits. It returns the peer's
     answer to its own request, or leaves the connection marked.
     */
    method Serve(request: Bytes, schedule: seq<Moment>) returns (r: Option<Bytes>)
      requires Valid() && !dirty && IsFramed(request)
      modifies this
      ensures Valid()
      ensures r.Some? ==> !dirty && done == old(done) + [Exchange(request, r.value)] == stream.served
      ensures r.None? ==> dirty && done == old(done)
      ensures At(Idle) == Driven(Next(old(At(Idle)), Begin(request)).value, schedule)
    {
      dirty := true;
      var ok, later := WriteAll(request, schedule);
      if !ok {
        return None;
      }
      r := AfterWriting(request, later);
    }

    /** With the request written: the mark is cleared when the response has been read. */
    method AfterWriting(ghost request: Bytes, schedule: seq<Moment>) returns (r: Option<Bytes>)
      requires dirty && IsFramed(request) && InFlight(stream, done, request, |request|, []) && correlationId == |done|
      modifies this
      ensures Valid() && (r.Some? <==> !dirty)
      ensures done == old(done) + if r.Some? then [Exchange(request, r.value)] else []
      ensures At(Idle) == Driven(old(At(Writing(request, |request|))), schedule)
    {
      DrivenOn(At(Writing(request, |request|)), schedule);
      correlationId := correlationId + 1;
      r := ReadResponse(request, schedule);
      if r.Some? {
        FinishQuiet(stream, done, request, r.value);
        dirty := false;
        done := done + [Exchange(request, r.value)];
      }
    }

    /** The length of the response, and then the rest of it. */
    method ReadResponse(ghost request: Bytes, schedule: seq<Moment>) returns (r: Option<Bytes>)
      requires IsFramed(request) && InFlight(stream, done, request, |request|, [])
      modifies this`stream
      ensures done <= stream.served
      ensures r.Some? ==> 4 <= |r.value| == Wanted(r.value) && InFlight(stream, done, request, |request|, r.value)
      ensures Driven(old(At(Reading(request, []))), schedule)
              == if r.Some? then At(Idle).(dirty := false, done := done + [Exchange(request, r.value)]) else At(Idle)
    {
      var ok, size, later := ReadExact(request, [], 4, schedule);
      if !ok {
        return None;
      }
      SizeIsAnswers(stream, done, request, size);
      assert size[..4] == size;
      var response;
      ok, response, later := ReadExact(request, size, ClientFrameLength(size), later);
      if !ok {
        return None;
      }
      assert response[..4] == size;
      DrivenOn(At(Reading(request, response)), later);
      r := Some(response);
    }
  }

  /** A length that is still to be reached is the one that is wanted. */
  predicate Towards(got: Bytes, length: nat) {
    |got| < length ==> length == Wanted(got)
  }

  lemma StillTowards(got: Bytes, more: Bytes, length: nat)
    requires |got| < length && Towards(got, length) && |got| + |more| <= length
    ensures Towards(got + more, length)
  {
    if 4 <= |got| {
      assert (got + more)[..4] == got[..4];
    }
  }

  lemma SizeIsAnswers(w: Wire, done: seq<Exchange>, request: Bytes, size: Bytes)
    requires InFlight(w, done, request, |request|, size) && |size| == 4
    ensures 4 <= ClientFrameLength(size)
  {
    var answer := w.served[|done|].answer;
    assert size + (w.incoming + w.transit) == size + w.incoming + w.transit == answer;
    AnswerRead(answer, size, w.incoming + w.transit);
    assert size[..4] == size;
  }
}
