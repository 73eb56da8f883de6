/**
 Pooled connections to a broker. A round trip marks its connection dirty, writes a
 request, reads a response and only then clears the mark; it can be cancelled, or
 fail, wherever it waits, and a connection still marked is not handed out again.

 `Link` is one connection and its peer, `Next` any single step of either, and a
 pool any number of them interleaved.
 */
module Pool {
  import opened Base
  import opened Frames

  datatype Exchange = Exchange(request: Bytes, answer: Bytes)

  /**
   The socket and the peer: bytes written and not yet taken by the peer, what it
   was asked and answered, bytes answered and on their way, bytes to be read.
   */
  datatype Wire = Wire(outgoing: Bytes, served: seq<Exchange>, transit: Bytes, incoming: Bytes)

  const SILENT := Wire([], [], [], [])

  /** What the peer and the network do of their own accord. */
  datatype Move = Answer(payload: Bytes) | Deliver(count: nat)

  /** The peer takes one request at a time, in order, and answers each with one frame. */
  function Moved(w: Wire, m: Move): (r: Wire) {
    match m
    case Answer(payload) =>
      if NextFrame(w.outgoing).Err? || Framed(payload).Err? then w
      else
        var asked, answer := NextFrame(w.outgoing).value, Framed(payload).value;
        Wire(asked.rest, w.served + [Exchange(asked.value, answer)], w.transit + answer, w.incoming)
    case Deliver(count) =>
      var n := if count <= |w.transit| then count else |w.transit|;
      Wire(w.outgoing, w.served, w.transit[n..], w.incoming + w.transit[..n])
  }

  // ---------------------------------------------------------------------
  // What is true of the wire

  /** Nothing is owed either way: every exchange of the peer was completed here. */
  predicate Quiet(w: Wire, done: seq<Exchange>) {
    w.served == done && w.outgoing == [] && w.transit == [] && w.incoming == []
  }

  /** The peer has not yet taken the request. */
  predicate Asking(w: Wire, done: seq<Exchange>, request: Bytes, written: nat, got: Bytes) {
    && written <= |request|
    && w.served == done && w.outgoing == request[..written]
    && w.transit == [] && w.incoming == [] && got == []
  }

  /** It has: the answer is what was read, what can be read and what is on its way. */
  predicate Answering(w: Wire, done: seq<Exchange>, request: Bytes, written: nat, got: Bytes) {
    && written == |request|
    && w.outgoing == []
    && |w.served| == |done| + 1
    && w.served == done + [Exchange(request, w.served[|done|].answer)]
    && IsFramed(w.served[|done|].answer)
    && got + w.incoming + w.transit == w.served[|done|].answer
  }

  predicate InFlight(w: Wire, done: seq<Exchange>, request: Bytes, written: nat, got: Bytes) {
    Asking(w, done, request, written, got) || Answering(w, done, request, written, got)
  }

  /** No part of a frame short of the whole is taken for one. */
  lemma PartOfFrame(frame: Bytes, n: nat)
    requires IsFramed(frame) && n <= |frame|
    ensures NextFrame(frame[..n]) == if n == |frame| then Ok(Parsed(frame, [])) else Err(Io)
  {
    NextFrameOf(frame, []);
    assert frame + [] == frame;
    if n == |frame| {
      assert frame[..n] == frame;
    } else if 4 <= n {
      assert frame[..n][..4] == frame[..4];
    }
  }

  lemma MoveKeepsQuiet(w: Wire, done: seq<Exchange>, m: Move)
    requires Quiet(w, done)
    ensures Quiet(Moved(w, m), done)
  {
  }

  lemma AnswerKeepsInFlight(w: Wire, done: seq<Exchange>, request: Bytes, written: nat, got: Bytes, payload: Bytes)
    requires IsFramed(request) && InFlight(w, done, request, written, got)
    ensures InFlight(Moved(w, Answer(payload)), done, request, written, got)
  {
    if Asking(w, done, request, written, got) {
      PartOfFrame(request, written);
      if Framed(payload).Ok? {
        FramedIsFramed(payload);
        assert got + w.incoming + (w.transit + Framed(payload).value) == Framed(payload).value;
      }
    }
  }

  lemma MoveKeepsInFlight(w: Wire, done: seq<Exchange>, request: Bytes, written: nat, got: Bytes, m: Move)
    requires IsFramed(request) && InFlight(w, done, request, written, got)
    ensures InFlight(Moved(w, m), done, request, written, got)
  {
    match m {
      case Answer(payload) =>
        AnswerKeepsInFlight(w, done, request, written, got, payload);
      case Deliver(count) =>
        var next := Moved(w, m);
        assert got + next.incoming + next.transit == got + w.incoming + w.transit;
    }
  }

  lemma MoveExtends(w: Wire, m: Move)
    ensures w.served <= Moved(w, m).served
  {
  }

  /** The client's length is the length of the answer, so reading that much reads it all. */
  lemma AnswerRead(answer: Bytes, got: Bytes, rest: Bytes)
    requires IsFramed(answer) && got + rest == answer && 4 <= |got|
    ensures ClientFrameLength(got[..4]) == |answer|
    ensures |got| == ClientFrameLength(got[..4]) ==> got == answer && rest == []
  {
    NextFrameOf(answer, []);
    assert answer + [] == answer && got[..4] == answer[..4];
    LengthsAgree(got[..4]);
  }

  // ---------------------------------------------------------------------
  // One connection, step by step

  datatype Phase = Idle | Writing(request: Bytes, written: nat) | Reading(request: Bytes, got: Bytes)

  datatype Link = Link(dirty: bool, correlationId: int, phase: Phase, wire: Wire, done: seq<Exchange>)

  const FRESH := Link(false, 0, Idle, SILENT, [])

  datatype Step =
    | Begin(request: Bytes)  // handed out by the pool, a round trip starts
    | Write(count: nat)
    | Sent
    | Read(count: nat)
    | Finish
    | Abort                  // cancelled, or failed, wherever it was
    | Peer(move: Move)

  /** How much of the response is asked of the stream: its length first, then the rest. */
  function Wanted(got: Bytes): (r: int) {
    if |got| < 4 then 4 else ClientFrameLength(got[..4])
  }

  /** The connection after a step, if the step can be taken. */
  function Next(l: Link, s: Step): (r: Option<Link>) {
    match s
    case Begin(request) =>
      if l.phase.Idle? && !l.dirty && IsFramed(request)
      then Some(l.(dirty := true, phase := Writing(request, 0))) else None
    case Write(count) =>
      if l.phase.Writing? && l.phase.written + count <= |l.phase.request| then
        var written := l.phase.written + count;
        Some(l.(phase := Writing(l.phase.request, written),
                wire := l.wire.(outgoing := l.wire.outgoing + l.phase.request[l.phase.written..written])))
      else None
    case Sent =>
      if l.phase.Writing? && l.phase.written == |l.phase.request|
      then Some(l.(correlationId := l.correlationId + 1, phase := Reading(l.phase.request, []))) else None
    case Read(count) =>
      if l.phase.Reading? && count <= |l.wire.incoming| && |l.phase.got| + count <= Wanted(l.phase.got)
      then Some(l.(phase := Reading(l.phase.request, l.phase.got + l.wire.incoming[..count]),
                   wire := l.wire.(incoming := l.wire.incoming[count..]))) else None
    case Finish =>
      if l.phase.Reading? && 4 <= |l.phase.got| == Wanted(l.phase.got)
      then Some(l.(dirty := false, phase := Idle, done := l.done + [Exchange(l.phase.request, l.phase.got)]))
      else None
    case Abort =>
      if l.phase.Idle? then None else Some(l.(phase := Idle))
    case Peer(move) =>
      Some(l.(wire := Moved(l.wire, move)))
  }

  /** The invariant of a connection. */
  predicate Sound(l: Link) {
    && l.done <= l.wire.served
    && match l.phase
       case Idle => l.dirty || (Quiet(l.wire, l.done) && l.correlationId == |l.done|)
       case Writing(request, written) =>
         && l.dirty && IsFramed(request) && l.correlationId == |l.done|
         && InFlight(l.wire, l.done, request, written, [])
       case Reading(request, got) =>
         && l.dirty && IsFramed(request) && l.correlationId == |l.done| + 1
         && InFlight(l.wire, l.done, request, |request|, got)
  }

  lemma WriteKeeps(w: Wire, done: seq<Exchange>, request: Bytes, written: nat, next: nat)
    requires InFlight(w, done, request, written, []) && written <= next <= |request|
    ensures InFlight(w.(outgoing := w.outgoing + request[written..next]), done, request, next, [])
  {
    assert request[..written] + request[written..next] == request[..next];
  }

  lemma ReadKeeps(w: Wire, done: seq<Exchange>, request: Bytes, got: Bytes, count: nat)
    requires InFlight(w, done, request, |request|, got) && count <= |w.incoming|
    ensures InFlight(w.(incoming := w.incoming[count..]), done, request, |request|, got + w.incoming[..count])
  {
    assert got + w.incoming[..count] + w.incoming[count..] + w.transit == got + w.incoming + w.transit;
  }

  /** A response that is complete is the answer to the request, and nothing is left over. */
  lemma FinishQuiet(w: Wire, done: seq<Exchange>, request: Bytes, got: Bytes)
    requires InFlight(w, done, request, |request|, got)
    requires 4 <= |got| == Wanted(got)
    ensures Quiet(w, done + [Exchange(request, got)])
  {
    var answer := w.served[|done|].answer;
    assert got + (w.incoming + w.transit) == got + w.incoming + w.transit == answer;
    AnswerRead(answer, got, w.incoming + w.transit);
  }

  lemma StepKeepsSound(l: Link, s: Step)
    requires Sound(l) && Next(l, s).Some?
    ensures Sound(Next(l, s).value)
  {
    match s {
      case Write(count) =>
        WriteKeeps(l.wire, l.done, l.phase.request, l.phase.written, l.phase.written + count);
      case Read(count) =>
        ReadKeeps(l.wire, l.done, l.phase.request, l.phase.got, count);
      case Finish =>
        FinishQuiet(l.wire, l.done, l.phase.request, l.phase.got);
      case Peer(move) =>
        PeerKeepsSound(l, move);
      case _ =>
    }
  }

  lemma PeerKeepsSound(l: Link, move: Move)
    requires Sound(l)
    ensures Sound(l.(wire := Moved(l.wire, move)))
  {
    MoveExtends(l.wire, move);
    match l.phase {
      case Idle =>
        if !l.dirty { MoveKeepsQuiet(l.wire, l.done, move); }
      case Writing(request, written) =>
        MoveKeepsInFlight(l.wire, l.done, request, written, [], move);
      case Reading(request, got) =>
        MoveKeepsInFlight(l.wire, l.done, request, |request|, got, move);
    }
  }

  // ---------------------------------------------------------------------
  // A pool of them

  datatype Event = Create(id: nat) | On(id: nat, step: Step)

  type Links = map<nat, Link>

  function After(links: Links, e: Event): (r: Option<Links>) {
    match e
    case Create(id) => if id in links then None else Some(links[id := FRESH])
    case On(id, step) =>
      if id !in links || Next(links[id], step).None? then None
      else Some(links[id := Next(links[id], step).value])
  }

  /** The pool after some events, if they can happen in that order. */
  function PoolAfter(events: seq<Event>): (r: Option<Links>) {
    if events == [] then Some(map[])
    else match PoolAfter(events[..|events| - 1])
      case None => None
      case Some(links) => After(links, events[|events| - 1])
  }

  lemma {:induction false} EveryLinkIsSound(events: seq<Event>)
    requires PoolAfter(events).Some?
    ensures forall id :: id in PoolAfter(events).value ==> Sound(PoolAfter(events).value[id])
  {
    if events != [] {
      var before := events[..|events| - 1];
      EveryLinkIsSound(before);
      var e := events[|events| - 1];
      if e.On? {
        StepKeepsSound(PoolAfter(before).value[e.id], e.step);
      }
    }
  }

  /**
   However round trips, cancellations, failures and the peers interleave: the
   round trips completed on a connection returned, one for one and in order, what
   its peer answered to those very requests.
   */
  lemma EveryAnswerIsItsOwn(events: seq<Event>, id: nat, k: nat)
    requires PoolAfter(events).Some? && id in PoolAfter(events).value
    requires k < |PoolAfter(events).value[id].done|
    ensures var l := PoolAfter(events).value[id];
            k < |l.wire.served| && l.done[k] == l.wire.served[k]
  {
    EveryLinkIsSound(events);
  }

  /** A connection the pool hands out again has nothing unread, in transit or unanswered. */
  lemma RecycledIsQuiet(events: seq<Event>, id: nat, request: Bytes)
    requires PoolAfter(events).Some? && PoolAfter(events + [On(id, Begin(request))]).Some?
    ensures id in PoolAfter(events).value && Quiet(PoolAfter(events).value[id].wire, PoolAfter(events).value[id].done)
  {
    EveryLinkIsSound(events);
    assert (events + [On(id, Begin(request))])[..|events|] == events;
  }

  /** A round trip that was given up leaves a connection that none will be started on. */
  lemma {:induction false} AbortedIsNeverReused(events: seq<Event>, more: seq<Event>, id: nat)
    requires PoolAfter(events).Some? && id in PoolAfter(events).value
    requires PoolAfter(events).value[id].phase.Idle? && PoolAfter(events).value[id].dirty
    requires PoolAfter(events + more).Some?
    ensures id in PoolAfter(events + more).value
    ensures var later := PoolAfter(events + more).value[id];
            later.phase.Idle? && later.dirty && later.done == PoolAfter(events).value[id].done
    decreases |more|
  {
    if more == [] {
      assert events + more == events;
    } else {
      assert (events + more)[..|events + more| - 1] == events + more[..|more| - 1];
      AbortedIsNeverReused(events, more[..|more| - 1], id);
    }
  }
}
