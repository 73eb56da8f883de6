/**
 What becomes of a round trip by what happens each time it waits: the steps that a
 schedule spells, where they lead, and exactly when they lead to the answer.
 */
module Schedules {
  import opened Base
  import opened Frames
  import opened Pool
  import opened Completion

  /** What happens while a round trip waits: the peer moves, the stream is ready, or it is over. */
  datatype Moment = Meanwhile(move: Move) | Ready(count: nat) | Stop

  /** As much as the stream is ready for, and there is. */
  function StepFor(l: Link, m: Moment): (r: Step) {
    match m
    case Meanwhile(move) => Peer(move)
    case Stop => Abort
    case Ready(count) =>
      match l.phase
      case Writing(request, written) => Write(Least(count, Difference(|request|, written)))
      case Reading(_, got) => Read(Least(count, Least(|l.wire.incoming|, Difference(Wanted(got), |got|))))
      case Idle => Abort
  }

  function Difference(a: int, b: int): (r: nat) {
    if a >= b then a - b else 0
  }

  function Least(a: nat, b: nat): (r: nat) {
    if a <= b then a else b
  }

  /**
   The steps that a schedule spells. A request that is written, or a response that
   is read, waits for nothing; what is not done when the schedule ends is given up.
   */
  function Spelled(l: Link, schedule: seq<Moment>): (r: seq<Step>)
    decreases |schedule|, l.phase.Writing?
  {
    if l.phase.Idle? then []
    else if Next(l, Sent).Some? then [Sent] + Spelled(Next(l, Sent).value, schedule)
    else if Next(l, Finish).Some? then [Finish]
    else if schedule == [] then [Abort]
    else
      var step := StepFor(l, schedule[0]);
      if Next(l, step).None? then [] else [step] + Spelled(Next(l, step).value, schedule[1..])
  }

  /** Where they lead. */
  function Driven(l: Link, schedule: seq<Moment>): (r: Link)
    decreases |schedule|, l.phase.Writing?
  {
    if l.phase.Idle? then l
    else if Next(l, Sent).Some? then Driven(Next(l, Sent).value, schedule)
    else if Next(l, Finish).Some? then Next(l, Finish).value
    else if schedule == [] then Next(l, Abort).value
    else
      var step := StepFor(l, schedule[0]);
      if Next(l, step).None? then l else Driven(Next(l, step).value, schedule[1..])
  }

  /** Waiting: there is more to write, or to read. */
  predicate Waits(l: Link) {
    match l.phase
    case Idle => false
    case Writing(request, written) => written < |request|
    case Reading(_, got) => |got| < Wanted(got)
  }

  lemma {:induction false} DrivenEnds(l: Link, schedule: seq<Moment>)
    requires Waits(l) && (schedule == [] || schedule[0].Stop?)
    ensures Driven(l, schedule) == l.(phase := Idle)
  {
  }

  lemma {:induction false} DrivenMoves(l: Link, schedule: seq<Moment>)
    requires Waits(l) && schedule != [] && schedule[0].Meanwhile?
    ensures Driven(l, schedule) == Driven(l.(wire := Moved(l.wire, schedule[0].move)), schedule[1..])
  {
  }

  lemma {:induction false} DrivenWrites(l: Link, schedule: seq<Moment>, next: nat)
    requires Waits(l) && l.phase.Writing? && schedule != [] && schedule[0].Ready?
    requires next == Least(l.phase.written + schedule[0].count, |l.phase.request|)
    ensures Driven(l, schedule)
            == Driven(l.(phase := Writing(l.phase.request, next),
                         wire := l.wire.(outgoing := l.wire.outgoing + l.phase.request[l.phase.written..next])),
                      schedule[1..])
  {
  }

  lemma {:induction false} DrivenReads(l: Link, schedule: seq<Moment>, n: nat)
    requires Waits(l) && l.phase.Reading? && schedule != [] && schedule[0].Ready?
    requires n == Least(schedule[0].count, Least(|l.wire.incoming|, Wanted(l.phase.got) - |l.phase.got|))
    ensures Driven(l, schedule)
            == Driven(l.(phase := Reading(l.phase.request, l.phase.got + l.wire.incoming[..n]),
                         wire := l.wire.(incoming := l.wire.incoming[n..])),
                      schedule[1..])
  {
  }

  lemma {:induction false} DrivenOn(l: Link, schedule: seq<Moment>)
    ensures l.phase.Writing? && l.phase.written == |l.phase.request| ==>
              Driven(l, schedule)
              == Driven(l.(correlationId := l.correlationId + 1, phase := Reading(l.phase.request, [])), schedule)
    ensures l.phase.Reading? && 4 <= |l.phase.got| == Wanted(l.phase.got) ==>
              Driven(l, schedule)
              == l.(dirty := false, phase := Idle, done := l.done + [Exchange(l.phase.request, l.phase.got)])
  {
  }

  lemma {:induction false} DrivenIsSpelled(l: Link, schedule: seq<Moment>)
    ensures Steps(l, Spelled(l, schedule)) == Some(Driven(l, schedule))
    decreases |schedule|, l.phase.Writing?
  {
    if l.phase.Idle? {
    } else if Next(l, Sent).Some? {
      var next := Next(l, Sent).value;
      DrivenIsSpelled(next, schedule);
      OneStep(l, Sent, Spelled(next, schedule));
    } else if Next(l, Finish).Some? {
      OneStep(l, Finish, []);
    } else if schedule == [] {
      OneStep(l, Abort, []);
    } else {
      var step := StepFor(l, schedule[0]);
      if Next(l, step).Some? {
        var next := Next(l, step).value;
        DrivenIsSpelled(next, schedule[1..]);
        OneStep(l, step, Spelled(next, schedule[1..]));
      }
    }
  }

  // ---------------------------------------------------------------------
  // When a round trip is completed

  function Sum(counts: seq<nat>): (r: nat) {
    if counts == [] then 0 else counts[0] + Sum(counts[1..])
  }

  function Readies(counts: seq<nat>): (r: seq<Moment>) {
    if counts == [] then [] else [Ready(counts[0])] + Readies(counts[1..])
  }

  lemma {:induction false} SumOfEnd(counts: seq<nat>, i: nat)
    requires i <= |counts|
    ensures Sum(counts[i..]) <= Sum(counts)
  {
    if i > 0 {
      assert counts[i..] == counts[1..][i - 1..];
      SumOfEnd(counts[1..], i - 1);
    }
  }

  /**
   Whether reads of up to so many bytes, of which some were read before, read a frame:
   they stop short at the end of its length, and go on from there.
   */
  ghost predicate Enough(got: nat, total: nat, takes: seq<nat>) {
    if got < 4
    then exists i :: SplitAt(got, total, takes, i)
    else Sum(takes) >= total - got
  }

  lemma {:induction false} SumOfStart(takes: seq<nat>, i: nat)
    requires 0 < i <= |takes|
    ensures Sum(takes[..i]) == takes[0] + Sum(takes[1..][..i - 1])
  {
    assert takes[..i][1..] == takes[1..][..i - 1];
  }

  /** A split of the reads, before and after the end of the length. */
  predicate SplitAt(got: nat, total: nat, takes: seq<nat>, i: int) {
    0 <= i <= |takes| && Sum(takes[..i]) >= 4 - got && Sum(takes[i..]) >= total - 4
  }

  lemma {:induction false} EnoughStep(got: nat, total: nat, takes: seq<nat>)
    requires got < 4 <= total && takes != []
    ensures Enough(got, total, takes) <==> Enough(got + Least(takes[0], 4 - got), total, takes[1..])
  {
    if takes[0] >= 4 - got {
      LengthIsRead(got, total, takes);
    } else {
      LengthIsNotRead(got, total, takes);
    }
  }

  lemma {:induction false} LengthIsRead(got: nat, total: nat, takes: seq<nat>)
    requires got < 4 <= total && takes != [] && takes[0] >= 4 - got
    ensures Enough(got, total, takes) <==> Sum(takes[1..]) >= total - 4
  {
    if Enough(got, total, takes) {
      var i :| SplitAt(got, total, takes, i);
      assert i > 0 && takes[i..] == takes[1..][i - 1..];
      SumOfEnd(takes[1..], i - 1);
    }
    if Sum(takes[1..]) >= total - 4 {
      SumOfStart(takes, 1);
      assert SplitAt(got, total, takes, 1);
    }
  }

  lemma {:induction false} LengthIsNotRead(got: nat, total: nat, takes: seq<nat>)
    requires got < 4 <= total && takes != [] && takes[0] < 4 - got
    ensures Enough(got, total, takes) <==> Enough(got + takes[0], total, takes[1..])
  {
    var c, rest := takes[0], takes[1..];
    if Enough(got, total, takes) {
      var i :| SplitAt(got, total, takes, i);
      assert i > 0;
      SumOfStart(takes, i);
      assert takes[i..] == rest[i - 1..];
      assert SplitAt(got + c, total, rest, i - 1);
    }
    if Enough(got + c, total, rest) {
      var i :| SplitAt(got + c, total, rest, i);
      SumOfStart(takes, i + 1);
      assert takes[i + 1..] == rest[i..];
      assert SplitAt(got, total, takes, i + 1);
    }
  }

  /** With all of the answer there to be read. */
  predicate Arrived(l: Link, answer: Bytes) {
    && l.phase.Reading? && l.dirty && IsFramed(answer)
    && l.phase.got + l.wire.incoming == answer
  }

  predicate Ended(l: Link, end: Link, answer: Option<Bytes>)
    requires !l.phase.Idle?
  {
    && end.phase.Idle? && end.dirty == answer.None?
    && end.done == l.done + if answer.None? then [] else [Exchange(l.phase.request, answer.value)]
  }

  /** How much of it a read of up to so many bytes reads. */
  function Taken(got: nat, total: nat, count: nat): (r: nat)
    requires got <= total && 4 <= total
  {
    Least(count, if got < 4 then 4 - got else total - got)
  }

  lemma {:induction false} EnoughCons(got: nat, total: nat, takes: seq<nat>)
    requires got < total && 4 <= total && takes != []
    ensures Enough(got, total, takes) <==> Enough(got + Taken(got, total, takes[0]), total, takes[1..])
  {
    if got < 4 {
      EnoughStep(got, total, takes);
    }
  }

  function ReadOnce(l: Link, n: nat): (r: Link)
    requires l.phase.Reading? && n <= |l.wire.incoming|
  {
    l.(phase := Reading(l.phase.request, l.phase.got + l.wire.incoming[..n]),
       wire := l.wire.(incoming := l.wire.incoming[n..]))
  }

  lemma {:induction false} ReadsOnce(l: Link, answer: Bytes, schedule: seq<Moment>)
    requires Arrived(l, answer) && |l.phase.got| < |answer| && schedule != [] && schedule[0].Ready?
    ensures var n := Taken(|l.phase.got|, |answer|, schedule[0].count);
            && n <= |l.wire.incoming| && Arrived(ReadOnce(l, n), answer)
            && Driven(l, schedule) == Driven(ReadOnce(l, n), schedule[1..])
  {
    var got, n := l.phase.got, Taken(|l.phase.got|, |answer|, schedule[0].count);
    if 4 <= |got| {
      AnswerRead(answer, got, l.wire.incoming);
    }
    DrivenReads(l, schedule, n);
    assert got + l.wire.incoming[..n] + l.wire.incoming[n..] == got + l.wire.incoming;
  }

  lemma {:induction false} ReadsExactly(l: Link, answer: Bytes, takes: seq<nat>)
    requires Arrived(l, answer)
    ensures Ended(l, Driven(l, Readies(takes)),
                  if Enough(|l.phase.got|, |answer|, takes) then Some(answer) else None)
    decreases |takes|
  {
    if |l.phase.got| == |answer| {
      AnswerRead(answer, answer, []);
      assert l.phase.got == answer && answer + [] == answer;
      DrivenOn(l, Readies(takes));
    } else if takes == [] {
      StillWaits(l, answer);
      DrivenEnds(l, []);
    } else {
      var n := Taken(|l.phase.got|, |answer|, takes[0]);
      ReadsOnce(l, answer, Readies(takes));
      assert Readies(takes)[1..] == Readies(takes[1..]);
      ReadsExactly(ReadOnce(l, n), answer, takes[1..]);
      EnoughCons(|l.phase.got|, |answer|, takes);
    }
  }

  lemma StillWaits(l: Link, answer: Bytes)
    requires Arrived(l, answer) && |l.phase.got| < |answer|
    ensures Waits(l)
  {
    if 4 <= |l.phase.got| {
      AnswerRead(answer, l.phase.got, l.wire.incoming);
    }
  }

  /** Nothing to be read is read as nothing. */
  lemma {:induction false} ReadsNothing(l: Link, counts: seq<nat>, later: seq<Moment>)
    requires l.phase.Reading? && l.phase.got == [] && l.wire.incoming == []
    ensures Driven(l, Readies(counts) + later) == Driven(l, later)
    decreases |counts|
  {
    if counts == [] {
      assert Readies(counts) + later == later;
    } else {
      var schedule := Readies(counts) + later;
      assert schedule[1..] == Readies(counts[1..]) + later;
      DrivenReads(l, schedule, 0);
      assert l.phase.got + l.wire.incoming[..0] == [] && l.wire.incoming[0..] == [];
      ReadsNothing(l, counts[1..], later);
    }
  }

  /** Asking, and nothing answered yet. */
  predicate Asks(l: Link) {
    && l.phase.Writing? && l.dirty && IsFramed(l.phase.request)
    && Asking(l.wire, l.done, l.phase.request, l.phase.written, [])
  }

  /** After writes of up to so many bytes. */
  function Written(l: Link, counts: seq<nat>): (r: Link)
    requires Asks(l)
  {
    var request, n := l.phase.request, l.phase.written + Sum(counts);
    if n < |request| then l.(phase := Writing(request, n), wire := l.wire.(outgoing := request[..n]))
    else
      l.(correlationId := l.correlationId + 1, phase := Reading(request, []),
         wire := l.wire.(outgoing := request))
  }

  /** After a write of up to so many. */
  function WrittenOnce(l: Link, count: nat): (r: Link)
    requires Asks(l)
    ensures Asks(r) && r.phase.request == l.phase.request
  {
    var request, next := l.phase.request, Least(l.phase.written + count, |l.phase.request|);
    l.(phase := Writing(request, next), wire := l.wire.(outgoing := request[..next]))
  }

  lemma {:induction false} WrittenCons(l: Link, counts: seq<nat>)
    requires Asks(l) && counts != []
    ensures Written(WrittenOnce(l, counts[0]), counts[1..]) == Written(l, counts)
  {
  }

  lemma {:induction false} WritesOnce(l: Link, schedule: seq<Moment>)
    requires Asks(l) && l.phase.written < |l.phase.request| && schedule != [] && schedule[0].Ready?
    ensures Driven(l, schedule) == Driven(WrittenOnce(l, schedule[0].count), schedule[1..])
  {
    var request, written := l.phase.request, l.phase.written;
    var next := Least(written + schedule[0].count, |request|);
    DrivenWrites(l, schedule, next);
    assert request[..written] + request[written..next] == request[..next];
  }

  lemma {:induction false} WritesDone(l: Link, counts: seq<nat>, later: seq<Moment>)
    requires Asks(l) && l.phase.written == |l.phase.request|
    ensures Driven(l, Readies(counts) + later) == Driven(Written(l, counts), later)
  {
    DrivenOn(l, Readies(counts) + later);
    assert l.phase.request[..l.phase.written] == l.phase.request;
    ReadsNothing(Written(l, counts), counts, later);
  }

  lemma {:induction false} WritesLead(l: Link, counts: seq<nat>, later: seq<Moment>)
    requires Asks(l)
    ensures Driven(l, Readies(counts) + later) == Driven(Written(l, counts), later)
    decreases |counts|
  {
    var schedule := Readies(counts) + later;
    if l.phase.written == |l.phase.request| {
      WritesDone(l, counts, later);
    } else if counts == [] {
      assert schedule == later && Written(l, counts) == l;
    } else {
      assert schedule[1..] == Readies(counts[1..]) + later;
      WritesOnce(l, schedule);
      WritesLead(WrittenOnce(l, counts[0]), counts[1..], later);
      WrittenCons(l, counts);
    }
  }

  /** The stream is ready to be written to, the peer answers and that arrives, and it is ready to be read from. */
  function Schedule(writes: seq<nat>, payload: Bytes, takes: seq<nat>): (r: seq<Moment>)
    requires Framed(payload).Ok?
  {
    Readies(writes) + ([Meanwhile(Answer(payload)), Meanwhile(Deliver(|Framed(payload).value|))] + Readies(takes))
  }

  /**
   A round trip returns the answer exactly when the writes add up to the request and
   the reads to the answer; and otherwise it leaves the connection marked.
   */
  lemma {:induction false} AnsweredExactly(l: Link, writes: seq<nat>, payload: Bytes, takes: seq<nat>)
    requires Asks(l) && l.phase.written == 0 && Framed(payload).Ok?
    ensures var answer := Framed(payload).value;
            Ended(l, Driven(l, Schedule(writes, payload, takes)),
                  if Sum(writes) >= |l.phase.request| && Enough(0, |answer|, takes) then Some(answer) else None)
  {
    var answer := Framed(payload).value;
    var later := [Meanwhile(Answer(payload)), Meanwhile(Deliver(|answer|))] + Readies(takes);
    WritesLead(l, writes, later);
    FramedIsFramed(payload);
    if Sum(writes) >= |l.phase.request| {
      AnswerArrives(Written(l, writes), payload, takes);
    } else {
      AnswerIsNotGiven(Written(l, writes), payload, takes);
    }
  }

  lemma {:induction false} AnswerArrives(l: Link, payload: Bytes, takes: seq<nat>)
    requires Framed(payload).Ok? && l.phase.Reading? && l.dirty && l.phase.got == [] && IsFramed(l.phase.request)
    requires l.wire == Wire(l.phase.request, l.done, [], [])
    ensures var answer := Framed(payload).value;
            Ended(l, Driven(l, [Meanwhile(Answer(payload)), Meanwhile(Deliver(|answer|))] + Readies(takes)),
                  if Enough(0, |answer|, takes) then Some(answer) else None)
  {
    var answer := Framed(payload).value;
    var later := [Meanwhile(Answer(payload)), Meanwhile(Deliver(|answer|))] + Readies(takes);
    FramedIsFramed(payload);
    PartOfFrame(l.phase.request, |l.phase.request|);
    assert l.phase.request[..|l.phase.request|] == l.phase.request;
    DrivenMoves(l, later);
    var answered := l.(wire := Moved(l.wire, Answer(payload)));
    assert answered.wire.transit == answer && answered.wire.incoming == [];
    DrivenMoves(answered, later[1..]);
    var arrived := answered.(wire := Moved(answered.wire, Deliver(|answer|)));
    assert arrived.wire.incoming == answer;
    assert later[1..][1..] == Readies(takes);
    ReadsExactly(arrived, answer, takes);
  }

  /** Short of the whole request the peer has nothing to answer. */
  lemma {:induction false} NothingIsAnswered(l: Link, payload: Bytes, count: nat, later: seq<Moment>)
    requires Asks(l) && l.phase.written < |l.phase.request|
    ensures Driven(l, [Meanwhile(Answer(payload)), Meanwhile(Deliver(count))] + later) == Driven(l, later)
  {
    var schedule := [Meanwhile(Answer(payload)), Meanwhile(Deliver(count))] + later;
    PartOfFrame(l.phase.request, l.phase.written);
    DrivenMoves(l, schedule);
    assert Moved(l.wire, Answer(payload)) == l.wire;
    DrivenMoves(l, schedule[1..]);
    assert Moved(l.wire, Deliver(count)) == l.wire;
    assert schedule[1..][1..] == later;
  }

  lemma {:induction false} AnswerIsNotGiven(l: Link, payload: Bytes, takes: seq<nat>)
    requires Framed(payload).Ok? && Asks(l) && l.phase.written < |l.phase.request|
    ensures var answer := Framed(payload).value;
            Ended(l, Driven(l, [Meanwhile(Answer(payload)), Meanwhile(Deliver(|answer|))] + Readies(takes)), None)
  {
    NothingIsAnswered(l, payload, |Framed(payload).value|, Readies(takes));
    assert Readies(takes) == Readies(takes) + [];
    WritesLead(l, takes, []);
    DrivenEnds(Written(l, takes), []);
  }
}
