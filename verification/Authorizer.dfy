/**
 The cached snapshot of the rules that questions are answered from.

 A question is answered in one go from a fresh snapshot, or else it waits for a
 read of the store; while it waits other questions are asked and answered, and
 other reads return. `Ask` and `Resume` are the two stretches between waits, and a
 history is any interleaving of them with the passing of time.
 */
module Authorizer {
  import opened Base
  import opened Acl

  /** Five seconds, in milliseconds. */
  const ACL_SNAPSHOT_TTL := 5000

  /** The rules, when they were stored, and (for the proofs) when the read began and what instant it saw. */
  datatype Snapshot = Snapshot(acls: Acls, readAt: nat, began: nat, seen: nat)

  /** The held snapshot, optionally only when it is still inside the time to live. */
  function Cached(snapshot: Option<Snapshot>, freshOnly: bool, ttl: nat, now: nat): (r: Option<Snapshot>) {
    if snapshot.Some? && (!freshOnly || now - snapshot.value.readAt < ttl) then snapshot else None
  }

  /** What a question was answered from. */
  datatype Basis = SuperUser | Fresh(snapshot: Snapshot) | Own(snapshot: Snapshot) | Stale(snapshot: Snapshot) | Nothing

  datatype Answer = Answer(question: Question, at: nat, allowed: bool, basis: Basis)

  datatype Config = Config(superUsers: set<string>, ttl: nat)

  function Decided(question: Question, at: nat, basis: Basis): (r: Answer) {
    match basis
    case SuperUser => Answer(question, at, true, basis)
    case Nothing => Answer(question, at, false, basis)
    case _ => Answer(question, at, Allows(basis.snapshot.acls, question), basis)
  }

  /** Up to the read: an answer, unless there has to be one. */
  function Asked(c: Config, snapshot: Option<Snapshot>, question: Question, now: nat): (r: Option<Answer>) {
    if question.principal in c.superUsers then Some(Decided(question, now, SuperUser))
    else
      match Cached(snapshot, true, c.ttl, now)
      case Some(held) => Some(Decided(question, now, Fresh(held)))
      case None => None
  }

  /** After the read: the snapshot held from then on and what the question is answered from. */
  function Resumed(snapshot: Option<Snapshot>, read: Option<Snapshot>): (r: (Option<Snapshot>, Basis)) {
    match read
    case Some(own) => (read, Own(own))
    case None => (snapshot, if snapshot.Some? then Stale(snapshot.value) else Nothing)
  }

  // ---------------------------------------------------------------------
  // Histories

  datatype Waiting = Waiting(question: Question, since: nat)

  datatype State = State(
    now: nat, snapshot: Option<Snapshot>, waiting: map<nat, Waiting>, answers: seq<Answer>)

  const INITIAL := State(0, None, map[], [])

  datatype Event =
    | Tick(elapsed: nat)
    | Ask(id: nat, question: Question)
    | Read(id: nat, seen: nat)  // the read returns what the store held at an instant since it began
    | Fail(id: nat)

  /** What the store holds over time: anything at all. */
  type Store = nat -> Acls

  function Next(c: Config, store: Store, s: State, e: Event): (r: Option<State>) {
    match e
    case Tick(elapsed) => Some(s.(now := s.now + elapsed))
    case Ask(id, question) =>
      if id in s.waiting then None
      else
        (match Asked(c, s.snapshot, question, s.now)
         case Some(answer) => Some(s.(answers := s.answers + [answer]))
         case None => Some(s.(waiting := s.waiting[id := Waiting(question, s.now)])))
    case Read(id, seen) =>
      if id !in s.waiting || !(s.waiting[id].since <= seen <= s.now) then None
      else Some(Answered(s, id, Some(Snapshot(store(seen), s.now, s.waiting[id].since, seen))))
    case Fail(id) =>
      if id !in s.waiting then None else Some(Answered(s, id, None))
  }

  function Answered(s: State, id: nat, read: Option<Snapshot>): (r: State)
    requires id in s.waiting
  {
    var (snapshot, basis) := Resumed(s.snapshot, read);
    State(s.now, snapshot, s.waiting - {id}, s.answers + [Decided(s.waiting[id].question, s.now, basis)])
  }

  /** The state after some events, if they can happen in that order. */
  function After(c: Config, store: Store, events: seq<Event>): (r: Option<State>)
    decreases |events|
  {
    if events == [] then Some(INITIAL)
    else match After(c, store, events[..|events| - 1])
      case None => None
      case Some(s) => Next(c, store, s, events[|events| - 1])
  }

  // ---------------------------------------------------------------------
  // What every answer rests on

  /** Rules that the store held at an instant during the read that fetched them. */
  predicate Genuine(store: Store, snapshot: Snapshot, now: nat) {
    snapshot.acls == store(snapshot.seen) && snapshot.began <= snapshot.seen <= snapshot.readAt <= now
  }

  predicate Justified(c: Config, store: Store, a: Answer) {
    (a.basis.SuperUser? <==> a.question.principal in c.superUsers) &&
    match a.basis
    case SuperUser => a.allowed
    case Nothing => !a.allowed
    case Stale(s) => Genuine(store, s, a.at) && a.allowed == Allows(store(s.seen), a.question)
    case Fresh(s) =>
      && Genuine(store, s, a.at) && a.allowed == Allows(store(s.seen), a.question)
      && a.at - s.readAt < c.ttl
    case Own(s) =>
      && Genuine(store, s, a.at) && a.allowed == Allows(store(s.seen), a.question)
      && a.at == s.readAt
  }

  predicate Sound(c: Config, store: Store, s: State) {
    && (s.snapshot.Some? ==> Genuine(store, s.snapshot.value, s.now))
    && (forall id :: id in s.waiting ==>
          s.waiting[id].since <= s.now && s.waiting[id].question.principal !in c.superUsers)
    && forall k :: 0 <= k < |s.answers| ==> Justified(c, store, s.answers[k]) && s.answers[k].at <= s.now
  }

  lemma NextIsSound(c: Config, store: Store, s: State, e: Event)
    requires Sound(c, store, s) && Next(c, store, s, e).Some?
    ensures Sound(c, store, Next(c, store, s, e).value)
  {
  }

  lemma {:induction false} EveryStateIsSound(c: Config, store: Store, events: seq<Event>)
    requires After(c, store, events).Some?
    ensures Sound(c, store, After(c, store, events).value)
    decreases |events|
  {
    if events != [] {
      var before := events[..|events| - 1];
      EveryStateIsSound(c, store, before);
      NextIsSound(c, store, After(c, store, before).value, events[|events| - 1]);
    }
  }

  /** An answer that the rules gave, rather than being a super user or the lack of any rules. */
  predicate FromRules(a: Answer) {
    !a.basis.SuperUser? && !a.basis.Nothing?
  }

  /**
   Whatever interleaves, an answer is what the rules that the store held at some
   instant say; and unless its own read failed, that instant is no further back
   than the time to live and the length of the read that fetched them.
   */
  lemma AnswersAreGenuine(c: Config, store: Store, events: seq<Event>, k: nat)
    requires After(c, store, events).Some? && k < |After(c, store, events).value.answers|
    requires FromRules(After(c, store, events).value.answers[k])
    ensures var a := After(c, store, events).value.answers[k];
            var s := a.basis.snapshot;
            && a.question.principal !in c.superUsers
            && s.seen <= a.at && a.allowed == Allows(store(s.seen), a.question)
            && (!a.basis.Stale? ==> a.at - s.seen <= c.ttl + (s.readAt - s.began))
  {
    EveryStateIsSound(c, store, events);
  }

  /** Super users are always let in, and nobody else is without rules that say so. */
  lemma SuperUsersBypass(c: Config, store: Store, events: seq<Event>, k: nat)
    requires After(c, store, events).Some? && k < |After(c, store, events).value.answers|
    ensures var a := After(c, store, events).value.answers[k];
            && (a.question.principal in c.superUsers ==> a.allowed)
            && (a.allowed && a.question.principal !in c.superUsers ==>
                  exists seen: nat :: seen <= a.at && Allows(store(seen), a.question))
  {
    EveryStateIsSound(c, store, events);
  }

  /** Once a snapshot is held one is held for good, and no later answer is for want of one. */
  lemma {:induction false} NeverDeniedForWant(c: Config, store: Store, events: seq<Event>, more: seq<Event>, k: nat)
    requires After(c, store, events).Some? && After(c, store, events).value.snapshot.Some?
    requires After(c, store, events + more).Some?
    ensures var s, later := After(c, store, events).value, After(c, store, events + more).value;
            && later.snapshot.Some? && s.answers <= later.answers
            && (|s.answers| <= k < |later.answers| ==> !later.answers[k].basis.Nothing?)
    decreases |more|
  {
    if more == [] {
      assert events + more == events;
    } else {
      assert (events + more)[..|events + more| - 1] == events + more[..|more| - 1];
      NeverDeniedForWant(c, store, events, more[..|more| - 1], k);
    }
  }

  // ---------------------------------------------------------------------
  // The history itself

  function Clock(events: seq<Event>): (r: nat)
    decreases |events|
  {
    if events == [] then 0
    else
      var last := events[|events| - 1];
      Clock(events[..|events| - 1]) + if last.Tick? then last.elapsed else 0
  }

  /** The latest read that returned something. */
  predicate IsLatestRead(events: seq<Event>, k: int) {
    0 <= k < |events| && events[k].Read? && forall j :: k < j < |events| ==> !events[j].Read?
  }

  predicate NeverRead(events: seq<Event>) {
    forall j :: 0 <= j < |events| ==> !events[j].Read?
  }

  /** The rules that it returned, and when it did. */
  predicate Returned(store: Store, events: seq<Event>, k: int, snapshot: Snapshot)
    requires 0 <= k < |events| && events[k].Read?
  {
    && snapshot.acls == store(events[k].seen) && snapshot.seen == events[k].seen
    && snapshot.readAt == Clock(events[..k])
  }

  /** What is held is what the latest read returned: nothing older is kept, and nothing newer is passed over. */
  lemma {:induction false} HeldIsLatestRead(c: Config, store: Store, events: seq<Event>)
    requires After(c, store, events).Some?
    ensures After(c, store, events).value.now == Clock(events)
    ensures After(c, store, events).value.snapshot.None? <==> NeverRead(events)
    ensures forall k :: IsLatestRead(events, k) ==>
              && After(c, store, events).value.snapshot.Some?
              && Returned(store, events, k, After(c, store, events).value.snapshot.value)
    decreases |events|
  {
    if events != [] {
      var before, last := events[..|events| - 1], events[|events| - 1];
      HeldIsLatestRead(c, store, before);
      forall k | IsLatestRead(events, k)
        ensures && After(c, store, events).value.snapshot.Some?
                && Returned(store, events, k, After(c, store, events).value.snapshot.value)
      {
        if k < |events| - 1 {
          assert IsLatestRead(before, k);
          assert before[..k] == events[..k];
        } else {
          assert events[..k] == before;
        }
      }
      if !last.Read? && NeverRead(before) {
        assert NeverRead(events);
      }
    }
  }

  lemma {:induction false} LatestReadExists(events: seq<Event>)
    requires !NeverRead(events)
    ensures exists k :: IsLatestRead(events, k)
    decreases |events|
  {
    var before := events[..|events| - 1];
    if events[|events| - 1].Read? {
      assert IsLatestRead(events, |events| - 1);
    } else {
      assert !NeverRead(before);
      LatestReadExists(before);
      var k :| IsLatestRead(before, k);
      assert IsLatestRead(events, k);
    }
  }

  /** A read less than the time to live ago, and none since. */
  predicate IsFresh(c: Config, events: seq<Event>, k: int) {
    IsLatestRead(events, k) && Clock(events) - Clock(events[..k]) < c.ttl
  }

  /**
   A question is answered at once exactly for a super user, or if the latest read is
   less than the time to live ago, and then by the rules it returned.
   */
  lemma AnsweredAtOnce(c: Config, store: Store, events: seq<Event>, id: nat, question: Question, k: int)
    requires After(c, store, events).Some? && id !in After(c, store, events).value.waiting
    ensures After(c, store, events + [Ask(id, question)]).Some?
    ensures var s, next := After(c, store, events).value, After(c, store, events + [Ask(id, question)]).value;
            && (question.principal in c.superUsers ==>
                  |next.answers| == |s.answers| + 1 && next.answers[|s.answers|].allowed)
            && (question.principal !in c.superUsers && IsFresh(c, events, k) ==>
                  && |next.answers| == |s.answers| + 1
                  && next.answers[|s.answers|].allowed == Allows(store(events[k].seen), question))
            && (question.principal !in c.superUsers && !(exists j :: IsFresh(c, events, j)) ==>
                  next.answers == s.answers && id in next.waiting)
  {
    HeldIsLatestRead(c, store, events);
    var more := events + [Ask(id, question)];
    assert more[..|more| - 1] == events;
    if !NeverRead(events) {
      LatestReadExists(events);
      var j :| IsLatestRead(events, j);
      assert IsFresh(c, events, j) <==> Clock(events) - Clock(events[..j]) < c.ttl;
    }
  }

  /** One that waited is answered by what its own read returned, or else by the latest that did, or else denied. */
  lemma AnsweredInTheEnd(c: Config, store: Store, events: seq<Event>, id: nat, last: Event, k: int)
    requires After(c, store, events).Some? && id in After(c, store, events).value.waiting
    requires (last.Read? || last.Fail?) && last.id == id && After(c, store, events + [last]).Some?
    ensures var s, next := After(c, store, events).value, After(c, store, events + [last]).value;
            var question := s.waiting[id].question;
            && |next.answers| == |s.answers| + 1
            && var answer := next.answers[|s.answers|];
               && answer.question == question
               && (last.Read? ==> answer.allowed == Allows(store(last.seen), question))
               && (last.Fail? && IsLatestRead(events, k) ==> answer.allowed == Allows(store(events[k].seen), question))
               && (last.Fail? && NeverRead(events) ==> !answer.allowed)
  {
    HeldIsLatestRead(c, store, events);
    var more := events + [last];
    assert more[..|more| - 1] == events;
  }

  /** An answer that a cached snapshot gave. */
  predicate FromCache(a: Answer) {
    a.basis.Fresh? || a.basis.Stale?
  }

  /** The event that an answer was given at, and what it rests on. */
  ghost predicate GivenAt(c: Config, store: Store, events: seq<Event>, n: int, a: Answer) {
    && 0 <= n < |events| && a.at == Clock(events[..n])
    && (FromCache(a) ==> exists k :: IsLatestRead(events[..n], k) && Returned(store, events[..n], k, a.basis.snapshot))
  }

  lemma {:induction false} CachedIsLatest(c: Config, store: Store, events: seq<Event>)
    requires After(c, store, events).Some? && After(c, store, events).value.snapshot.Some?
    ensures exists k :: IsLatestRead(events, k)
                        && Returned(store, events, k, After(c, store, events).value.snapshot.value)
  {
    HeldIsLatestRead(c, store, events);
    LatestReadExists(events);
    var k :| IsLatestRead(events, k);
    assert Returned(store, events, k, After(c, store, events).value.snapshot.value);
  }

  lemma LastIsGiven(c: Config, store: Store, before: seq<Event>, last: Event)
    requires After(c, store, before).Some? && Next(c, store, After(c, store, before).value, last).Some?
    ensures var s, next := After(c, store, before).value, Next(c, store, After(c, store, before).value, last).value;
            && s.answers <= next.answers && |next.answers| <= |s.answers| + 1
            && (|next.answers| == |s.answers| + 1 ==>
                  GivenAt(c, store, before + [last], |before|, next.answers[|s.answers|]))
  {
    HeldIsLatestRead(c, store, before);
    assert (before + [last])[..|before|] == before;
    if After(c, store, before).value.snapshot.Some? {
      CachedIsLatest(c, store, before);
    }
  }

  /** In every history, every answer from a cached snapshot rests on the latest read before it. */
  lemma {:induction false} EveryAnswerIsLatest(c: Config, store: Store, events: seq<Event>, i: nat)
    requires After(c, store, events).Some? && i < |After(c, store, events).value.answers|
    ensures exists n :: GivenAt(c, store, events, n, After(c, store, events).value.answers[i])
    decreases |events|
  {
    var before, last := events[..|events| - 1], events[|events| - 1];
    var s, a := After(c, store, before).value, After(c, store, events).value.answers[i];
    LastIsGiven(c, store, before, last);
    assert before + [last] == events;
    if i < |s.answers| {
      EveryAnswerIsLatest(c, store, before, i);
      var n :| GivenAt(c, store, before, n, a);
      assert before[..n] == events[..n];
      assert GivenAt(c, store, events, n, a);
    }
  }

  // ---------------------------------------------------------------------
  // The object

  class Authorizer {
    const config: Config
    var snapshot: Option<Snapshot>

    constructor (superUsers: set<string>)
      ensures config == Config(superUsers, 5000) && snapshot == None
    {
      config := Config(superUsers, ACL_SNAPSHOT_TTL);
      snapshot := None;
    }

    method IsSuperUser(principal: string) returns (r: bool)
      ensures r <==> principal in config.superUsers
    {
      r := principal in config.superUsers;
    }

    /** Up to the read of the store, which there is to be if there is no answer. */
    method Begin(question: Question, now: nat) returns (r: Option<bool>)
      ensures Asked(config, snapshot, question, now).Some? <==> r.Some?
      ensures r.Some? ==> r.value == Asked(config, snapshot, question, now).value.allowed
    {
      var superUser := IsSuperUser(question.principal);
      if superUser {
        return Some(true);
      }
      if snapshot.Some? && now - snapshot.value.readAt < config.ttl {
        return Some(Allows(snapshot.value.acls, question));
      }
      r := None;
    }

    /** After it: what was read is the snapshot from then on; if nothing was, the last one serves. */
    method Complete(question: Question, began: nat, read: Option<(Acls, nat)>, now: nat) returns (r: bool)
      modifies this
      ensures read.Some? ==>
                && snapshot == Some(Snapshot(read.value.0, now, began, read.value.1))
                && r == Allows(read.value.0, question)
      ensures read.None? ==>
                && snapshot == old(snapshot)
                && r == (snapshot.Some? && Allows(snapshot.value.acls, question))
      ensures var own := if read.None? then None else Some(Snapshot(read.value.0, now, began, read.value.1));
              && snapshot == Resumed(old(snapshot), own).0
              && r == Decided(question, now, Resumed(old(snapshot), own).1).allowed
    {
      match read {
        case Some((acls, seen)) =>
          snapshot := Some(Snapshot(Matching(acls, EVERYTHING), now, began, seen));
          EverythingMatches(acls);
          r := Allows(acls, question);
        case None =>
          r := snapshot.Some? && Allows(snapshot.value.acls, question);
      }
    }
  }
}
