/**
 A round trip on a pooled connection can be brought to its end: from wherever it
 is, if it has not been given up.
 */
module Completion {
  import opened Base
  import opened Frames
  import opened Pool

  /** Some steps, one after another, if they can be taken. */
  function Steps(l: Link, steps: seq<Step>): (r: Option<Link>)
    decreases |steps|
  {
    if steps == [] then Some(l)
    else match Next(l, steps[0])
      case None => None
      case Some(next) => Steps(next, steps[1..])
  }

  lemma {:induction false} OneStep(l: Link, s: Step, more: seq<Step>)
    requires Next(l, s).Some?
    ensures Steps(l, [s] + more) == Steps(Next(l, s).value, more)
  {
    assert ([s] + more)[1..] == more;
  }

  /** A response can be returned exactly when the whole of the answer has been read. */
  lemma FinishesExactly(l: Link)
    requires Sound(l) && l.phase.Reading?
    ensures Next(l, Finish).Some? <==> |l.wire.served| > |l.done| && l.phase.got == l.wire.served[|l.done|].answer
  {
    var request, got := l.phase.request, l.phase.got;
    if Answering(l.wire, l.done, request, |request|, got) {
      var answer, rest := l.wire.served[|l.done|].answer, l.wire.incoming + l.wire.transit;
      assert got + rest == got + l.wire.incoming + l.wire.transit == answer;
      if 4 <= |got| {
        AnswerRead(answer, got, rest);
      }
    }
  }

  /** A completed round trip: the connection can be handed out again. */
  predicate Finished(l: Link, end: Link) {
    && !l.phase.Idle? && end.phase.Idle? && !end.dirty
    && |end.done| == |l.done| + 1 && end.done[..|l.done|] == l.done
    && end.done[|l.done|].request == l.phase.request
  }

  /** Such steps, none of which gives the round trip up. */
  predicate LeadsOn(l: Link, steps: seq<Step>) {
    Abort !in steps && Steps(l, steps).Some? && Finished(l, Steps(l, steps).value)
  }

  lemma {:induction false} StepLeadsOn(l: Link, s: Step, more: seq<Step>)
    requires !l.phase.Idle? && !s.Abort? && !s.Finish? && !s.Begin?
    requires Next(l, s).Some? && LeadsOn(Next(l, s).value, more)
    ensures LeadsOn(l, [s] + more)
  {
    OneStep(l, s, more);
  }

  lemma ReadsRest(l: Link) returns (steps: seq<Step>)
    requires Sound(l) && l.phase.Reading? && 4 <= |l.phase.got| && l.wire.transit == [] && |l.wire.served| > |l.done|
    ensures LeadsOn(l, steps)
  {
    var request, got, answer := l.phase.request, l.phase.got, l.wire.served[|l.done|].answer;
    assert got + l.wire.incoming == got + l.wire.incoming + l.wire.transit == answer;
    AnswerRead(answer, got, l.wire.incoming);
    var read := Read(|l.wire.incoming|);
    StepKeepsSound(l, read);
    var next := Next(l, read).value;
    assert next.phase.got == answer;
    FinishesExactly(next);
    OneStep(next, Finish, []);
    StepLeadsOn(l, read, [Finish]);
    steps := [read] + [Finish];
  }

  lemma ReadsAll(l: Link) returns (steps: seq<Step>)
    requires Sound(l) && l.phase.Reading? && l.wire.transit == [] && |l.wire.served| > |l.done|
    ensures LeadsOn(l, steps)
  {
    if 4 <= |l.phase.got| {
      steps := ReadsRest(l);
    } else {
      var answer := l.wire.served[|l.done|].answer;
      assert l.phase.got + l.wire.incoming == l.phase.got + l.wire.incoming + l.wire.transit == answer;
      var read := Read(4 - |l.phase.got|);
      StepKeepsSound(l, read);
      var more := ReadsRest(Next(l, read).value);
      StepLeadsOn(l, read, more);
      steps := [read] + more;
    }
  }

  lemma ReadsWhenAnswered(l: Link) returns (steps: seq<Step>)
    requires Sound(l) && l.phase.Reading? && |l.wire.served| > |l.done|
    ensures LeadsOn(l, steps)
  {
    var deliver := Peer(Deliver(|l.wire.transit|));
    StepKeepsSound(l, deliver);
    var more := ReadsAll(Next(l, deliver).value);
    StepLeadsOn(l, deliver, more);
    steps := [deliver] + more;
  }

  /** Asked, or answered already. */
  lemma ReadsAfter(l: Link, payload: Bytes) returns (steps: seq<Step>)
    requires Sound(l) && l.phase.Reading? && Framed(payload).Ok?
    ensures LeadsOn(l, steps)
  {
    if |l.wire.served| > |l.done| {
      steps := ReadsWhenAnswered(l);
    } else {
      var answer := Peer(Answer(payload));
      PartOfFrame(l.phase.request, |l.phase.request|);
      StepKeepsSound(l, answer);
      var more := ReadsWhenAnswered(Next(l, answer).value);
      StepLeadsOn(l, answer, more);
      steps := [answer] + more;
    }
  }

  /** From wherever a round trip is: write the rest, be answered, have it delivered, and read it. */
  lemma Completes(l: Link, payload: Bytes) returns (steps: seq<Step>)
    requires Sound(l) && !l.phase.Idle? && Framed(payload).Ok?
    ensures LeadsOn(l, steps)
  {
    if l.phase.Reading? {
      steps := ReadsAfter(l, payload);
    } else {
      var write := Write(|l.phase.request| - l.phase.written);
      StepKeepsSound(l, write);
      var written := Next(l, write).value;
      StepKeepsSound(written, Sent);
      var more := ReadsAfter(Next(written, Sent).value, payload);
      StepLeadsOn(written, Sent, more);
      StepLeadsOn(l, write, [Sent] + more);
      steps := [write] + ([Sent] + more);
    }
  }

  function OnAll(id: nat, steps: seq<Step>): (r: seq<Event>) {
    if steps == [] then [] else [On(id, steps[0])] + OnAll(id, steps[1..])
  }

  lemma {:induction false} NoneAborts(id: nat, steps: seq<Step>)
    requires Abort !in steps
    ensures On(id, Abort) !in OnAll(id, steps)
  {
    if steps != [] {
      NoneAborts(id, steps[1..]);
    }
  }

  /** A pool in which one connection is at some point. */
  predicate Reaches(events: seq<Event>, id: nat, l: Link) {
    PoolAfter(events).Some? && id in PoolAfter(events).value && PoolAfter(events).value[id] == l
  }

  lemma {:induction false} PoolTakesOne(events: seq<Event>, id: nat, l: Link, s: Step)
    requires Reaches(events, id, l) && Next(l, s).Some?
    ensures Reaches(events + [On(id, s)], id, Next(l, s).value)
  {
    var more := events + [On(id, s)];
    assert more[..|more| - 1] == events;
  }

  lemma {:induction false} PoolTakes(events: seq<Event>, id: nat, l: Link, steps: seq<Step>)
    requires Reaches(events, id, l) && Steps(l, steps).Some?
    ensures Reaches(events + OnAll(id, steps), id, Steps(l, steps).value)
    decreases |steps|
  {
    if steps == [] {
      assert events + OnAll(id, steps) == events;
    } else {
      var first := [On(id, steps[0])];
      PoolTakesOne(events, id, l, steps[0]);
      PoolTakes(events + first, id, Next(l, steps[0]).value, steps[1..]);
      assert events + first + OnAll(id, steps[1..]) == events + (first + OnAll(id, steps[1..]));
    }
  }

  /** Whatever has happened in a pool, a round trip that has not been given up can be completed. */
  lemma EveryRoundTripCanFinish(events: seq<Event>, id: nat, payload: Bytes)
    requires PoolAfter(events).Some? && id in PoolAfter(events).value
    requires !PoolAfter(events).value[id].phase.Idle? && Framed(payload).Ok?
    ensures exists more: seq<Event>, end: Link ::
              && Reaches(events + more, id, end) && On(id, Abort) !in more
              && Finished(PoolAfter(events).value[id], end)
  {
    EveryLinkIsSound(events);
    var l := PoolAfter(events).value[id];
    var steps := Completes(l, payload);
    PoolTakes(events, id, l, steps);
    NoneAborts(id, steps);
    assert Reaches(events + OnAll(id, steps), id, Steps(l, steps).value);
  }
}
