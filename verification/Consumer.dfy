/**
 A member of a consumer group: given what the coordinator last answered, what to
 ask it next (`GroupConsumer::next_action`).

 `Step` is one call as a function of the state, `Run` a whole conversation from
 the initial state, and `GroupConsumer` the object that holds the state. What a
 request carries is then stated in terms of the conversation alone.
 */
module Consumer {
  import opened Base

  // The error codes a member handles
  const NO_ERROR := 0
  const NOT_COORDINATOR := 16
  const UNKNOWN_MEMBER_ID := 25
  const REBALANCE_IN_PROGRESS := 27
  const MEMBER_ID_REQUIRED := 79

  datatype TopicPartition = TopicPartition(topic: string, partitions: seq<int>)
  datatype Assignment = Assignment(version: int, partitions: seq<TopicPartition>)
  datatype GroupMember = GroupMember(memberId: string, metadata: Bytes)
  datatype Share = Share(memberId: string, assignment: Bytes)

  /** What the coordinator answers. */
  datatype Response =
    | JoinResponse(code: int, generation: int, protocolType: Option<string>, protocolName: Option<string>,
                   leader: string, memberId: string, members: Option<seq<GroupMember>>)
    | SyncResponse(code: int, assignment: Bytes)
    | HeartbeatResponse(code: int)
    | OtherResponse

  /** The fields that the layout for a version writes; the others are None. */
  datatype Subscription = Subscription(
    version: int, topics: seq<string>, owned: Option<seq<TopicPartition>>, generation: Option<int>)
  datatype Protocol = Protocol(name: string, metadata: Subscription)

  /** What a member asks. */
  datatype Request =
    | JoinGroup(groupId: string, groupType: string, rebalanceTimeout: int, sessionTimeout: int, memberId: string,
                reason: string, protocols: seq<Protocol>)
    | SyncGroup(groupId: string, memberId: string, generation: int, assignments: seq<Share>,
                protocolName: Option<string>, protocolType: Option<string>)
    | Heartbeat(groupId: string, memberId: string, generation: int)

  /** A call returns a request or an error, or it does not return. */
  datatype Outcome = Emitted(request: Request) | Failed(error: Error) | Panicked

  datatype MemberState =
    | Outsider(lastGeneration: Option<int>, lastMemberId: Option<string>, assignment: Option<Assignment>)
    | Follower(generation: int, memberId: string, assignment: Option<Assignment>)
    | Leader(generation: int, memberId: string, assignment: Option<Assignment>)
  {
    function GenerationId(): (r: Option<int>) {
      if Outsider? then lastGeneration else Some(generation)
    }

    function MemberId(): (r: Option<string>) {
      if Outsider? then lastMemberId else Some(memberId)
    }

    function Holding(held: Assignment): (r: MemberState) {
      match this
      case Outsider(generation, memberId, _) => Outsider(generation, memberId, Some(held))
      case Follower(generation, memberId, _) => Follower(generation, memberId, Some(held))
      case Leader(generation, memberId, _) => Leader(generation, memberId, Some(held))
    }
  }

  const INITIAL := Outsider(None, None, None)

  /**
   What a member is configured with: timeouts in milliseconds, and whether there is a
   callback for assignments; decoding and assigning are not part of this model.
   */
  datatype Config = Config(
    groupId: string,
    topics: seq<string>,
    rebalanceTimeout: nat,
    sessionTimeout: nat,
    notifies: bool,
    decode: Bytes -> Result<Assignment>,
    assign: (string, seq<GroupMember>) -> Result<seq<Share>>)

  const RANGE := "range"
  const ROUND_ROBIN := "roundrobin"
  const UNIFORM := "uniform"
  const COOPERATIVE_STICKY := "cooperative-sticky"
  const ASSIGNORS := [RANGE, ROUND_ROBIN, UNIFORM, COOPERATIVE_STICKY]

  // ---------------------------------------------------------------------
  // Requests

  const LATEST_SUBSCRIPTION := 3

  function SubscriptionVersion(assignment: Option<Assignment>): (r: int) {
    if assignment.None? then LATEST_SUBSCRIPTION else assignment.value.version
  }

  function Owned(assignment: Option<Assignment>): (r: seq<TopicPartition>) {
    if assignment.None? then [] else assignment.value.partitions
  }

  /** Owned partitions are there from version one, the generation from version two. */
  function Encode(version: int, topics: seq<string>, owned: seq<TopicPartition>, generation: int)
    : (r: Result<Subscription>)
  {
    match version
    case 0 => Ok(Subscription(0, topics, None, None))
    case 1 => Ok(Subscription(1, topics, Some(owned), None))
    case 2 => Ok(Subscription(2, topics, Some(owned), Some(generation)))
    case 3 => Ok(Subscription(3, topics, Some(owned), Some(generation)))
    case _ => Err(UnsupportedSubscription(version))
  }

  function JoinProtocol(c: Config, assignor: string, generation: Option<int>, assignment: Option<Assignment>)
    : (r: Result<Protocol>)
  {
    var metadata :- Encode(SubscriptionVersion(assignment), c.topics, Owned(assignment),
                           if generation.None? then -1 else generation.value);
    Ok(Protocol(assignor, metadata))
  }

  function JoinProtocols(
    c: Config, assignors: seq<string>, generation: Option<int>, assignment: Option<Assignment>)
    : (r: Result<seq<Protocol>>)
  {
    if assignors == [] then Ok([])
    else
      var first :- JoinProtocol(c, assignors[0], generation, assignment);
      var others :- JoinProtocols(c, assignors[1..], generation, assignment);
      Ok([first] + others)
  }

  const CONSUMER := "consumer"

  /** `as i32`: the low 32 bits, as a signed number. */
  function AsInt32(n: nat): (r: int) {
    ToSigned(n % U32_LIMIT, 4)
  }

  function JoinRequest(
    c: Config, generation: Option<int>, memberId: Option<string>, assignment: Option<Assignment>, reason: string)
    : (r: Outcome)
  {
    match JoinProtocols(c, ASSIGNORS, generation, assignment)
    case Ok(protocols) =>
      Emitted(JoinGroup(c.groupId, CONSUMER, AsInt32(c.rebalanceTimeout), AsInt32(c.sessionTimeout),
                        if memberId.None? then "" else memberId.value, reason, protocols))
    case Err(e) => Failed(e)
  }

  function Rejoin(c: Config, m: MemberState, reason: string): (r: Outcome)
    requires m.Outsider?
  {
    JoinRequest(c, m.lastGeneration, m.lastMemberId, m.assignment, reason)
  }

  // ---------------------------------------------------------------------
  // One call

  /** The state, the assignments the callback was given, and what the last call returned. */
  datatype World = World(member: MemberState, errors: map<int, nat>, notified: seq<Assignment>, outcome: Outcome)

  function Notified(c: Config, notified: seq<Assignment>, assignment: Assignment): (r: seq<Assignment>) {
    if c.notifies then notified + [assignment] else notified
  }

  function TallyOf(errors: map<int, nat>, code: int): (r: nat) {
    if code in errors then errors[code] else 0
  }

  function Tallied(errors: map<int, nat>, code: int): (r: map<int, nat>) {
    errors[code := TallyOf(errors, code) + 1]
  }

  function OnJoin(c: Config, w: World, r: Response): (next: World)
    requires w.member.Outsider? && r.JoinResponse?
  {
    var errors := Tallied(w.errors, r.code);
    if r.code == NOT_COORDINATOR then World(w.member, errors, w.notified, Rejoin(c, w.member, "join"))
    else if r.code == MEMBER_ID_REQUIRED then
      var member := Outsider(Some(r.generation), Some(r.memberId), w.member.assignment);
      World(member, errors, w.notified, Rejoin(c, member, "join member id required"))
    else if r.code == NO_ERROR then
      if r.leader == r.memberId then
        World(Leader(r.generation, r.memberId, None), errors, w.notified, LeaderSync(c, r))
      else
        World(Follower(r.generation, r.memberId, None), errors, w.notified, SyncRequest(c, r, []))
    else w.(outcome := Panicked)
  }

  function AssignorNamed(name: Option<string>): (r: string) {
    if name.Some? && name.value in ASSIGNORS then name.value else RANGE
  }

  function LeaderSync(c: Config, r: Response): (next: Outcome)
    requires r.JoinResponse?
  {
    match c.assign(AssignorNamed(r.protocolName), if r.members.None? then [] else r.members.value)
    case Ok(shares) => SyncRequest(c, r, shares)
    case Err(e) => Failed(e)
  }

  function SyncRequest(c: Config, r: Response, shares: seq<Share>): (next: Outcome)
    requires r.JoinResponse?
  {
    Emitted(SyncGroup(c.groupId, r.memberId, r.generation, shares, r.protocolName, r.protocolType))
  }

  function HeartbeatRequest(c: Config, m: MemberState): (r: Outcome)
    requires !m.Outsider?
  {
    Emitted(Heartbeat(c.groupId, m.memberId, m.generation))
  }

  function OnSync(c: Config, w: World, r: Response): (next: World)
    requires !w.member.Outsider? && r.SyncResponse?
  {
    var errors := Tallied(w.errors, r.code);
    if r.code == NO_ERROR then
      if r.assignment == [] then World(w.member, errors, w.notified, Panicked)
      else match c.decode(r.assignment)
        case Ok(assignment) =>
          var member := w.member.Holding(assignment);
          World(member, errors, Notified(c, w.notified, assignment), HeartbeatRequest(c, member))
        case Err(e) => World(w.member, errors, w.notified, Failed(e))
    else if r.code == REBALANCE_IN_PROGRESS then
      if r.assignment != [] then World(w.member, errors, w.notified, Panicked)
      else
        var member := Outsider(None, Some(w.member.memberId), w.member.assignment);
        World(member, errors, w.notified, Rejoin(c, member, "join after sync with rebalance"))
    else w.(outcome := Panicked)
  }

  function OnHeartbeat(c: Config, w: World, r: Response): (next: World)
    requires !w.member.Outsider? && r.HeartbeatResponse?
  {
    var errors := Tallied(w.errors, r.code);
    if r.code == UNKNOWN_MEMBER_ID then
      World(INITIAL, errors, w.notified, Rejoin(c, INITIAL, "join after unknown member id"))
    else if r.code == REBALANCE_IN_PROGRESS then
      var member := Outsider(Some(w.member.generation), Some(w.member.memberId), w.member.assignment);
      World(member, errors, w.notified, Rejoin(c, member, "join after rebalance"))
    else if r.code == NO_ERROR then World(w.member, errors, w.notified, HeartbeatRequest(c, w.member))
    else w.(outcome := Panicked)
  }

  /** One call of `next_action`: the new state and what is returned. */
  function Step(c: Config, w: World, input: Option<Response>): (next: World) {
    if w.member.Outsider? then
      if input.None? then w.(outcome := Rejoin(c, w.member, "join"))
      else if input.value.JoinResponse? then OnJoin(c, w, input.value)
      else w.(outcome := Panicked)
    else if input.Some? && input.value.SyncResponse? then OnSync(c, w, input.value)
    else if input.Some? && input.value.HeartbeatResponse? then OnHeartbeat(c, w, input.value)
    else w.(outcome := Panicked)
  }

  // ---------------------------------------------------------------------
  // Conversations

  type Inputs = seq<Option<Response>>

  function Front(inputs: Inputs): (r: Inputs)
    requires inputs != []
  {
    inputs[..|inputs| - 1]
  }

  function Last(inputs: Inputs): (r: Option<Response>)
    requires inputs != []
  {
    inputs[|inputs| - 1]
  }

  /** The state after some calls; before the first there is nothing to return. */
  function Run(c: Config, inputs: Inputs): (w: World)
    decreases |inputs|
  {
    if inputs == [] then World(INITIAL, map[], [], Panicked) else Step(c, Run(c, Front(inputs)), Last(inputs))
  }

  /** Every call returned a request. */
  predicate Emitting(c: Config, inputs: Inputs)
    decreases |inputs|
  {
    inputs != [] ==> Emitting(c, Front(inputs)) && Run(c, inputs).outcome.Emitted?
  }

  /** Every call but possibly the last returned a request, and the last returned. */
  predicate Unbroken(c: Config, inputs: Inputs) {
    inputs != [] ==> Emitting(c, Front(inputs)) && !Run(c, inputs).outcome.Panicked?
  }

  /** Whether the last request was to join the group; there is one before the first call. */
  predicate Joining(c: Config, inputs: Inputs)
    requires Emitting(c, inputs)
  {
    inputs != [] ==> Run(c, inputs).outcome.request.JoinGroup?
  }

  /** The answers a member is written for. */
  predicate Acceptable(joining: bool, input: Option<Response>) {
    if joining then
      input.Some? ==>
        input.value.JoinResponse? && input.value.code in {0, 16, 79}
    else
      input.Some? &&
      match input.value
      case SyncResponse(code, assignment) =>
        (code == 0 && assignment != []) || (code == 27 && assignment == [])
      case HeartbeatResponse(code) => code in {0, 25, 27}
      case _ => false
  }

  // What a conversation says, the latest answer first; the codes are those of the Kafka protocol guide

  predicate Joined(input: Option<Response>) {
    input.Some? && input.value.JoinResponse? && input.value.code == 0
  }

  predicate Elected(input: Option<Response>) {
    Joined(input) && input.value.leader == input.value.memberId
  }

  predicate Granted(input: Option<Response>) {
    input.Some? && input.value.JoinResponse? && input.value.code in {0, 79}
  }

  predicate Synced(input: Option<Response>) {
    input.Some? && input.value.SyncResponse? && input.value.code == 0
  }

  predicate Interrupted(input: Option<Response>) {
    input.Some? && input.value.SyncResponse? && input.value.code == 27
  }

  predicate Forgotten(input: Option<Response>) {
    input.Some? && input.value.HeartbeatResponse? && input.value.code == 25
  }

  /** The generation of the latest successful join. */
  function JoinedGeneration(inputs: Inputs): (r: Option<int>)
    decreases |inputs|
  {
    if inputs == [] then None
    else if Joined(Last(inputs)) then Some(Last(inputs).value.generation)
    else JoinedGeneration(Front(inputs))
  }

  /** Whether that join made the member the leader. */
  predicate Leading(inputs: Inputs)
    decreases |inputs|
  {
    inputs != [] && if Joined(Last(inputs)) then Elected(Last(inputs)) else Leading(Front(inputs))
  }

  /** The latest generation heard of, unless a synchronisation was interrupted or the member forgotten since. */
  function KnownGeneration(inputs: Inputs): (r: Option<int>)
    decreases |inputs|
  {
    if inputs == [] || Interrupted(Last(inputs)) || Forgotten(Last(inputs)) then None
    else if Granted(Last(inputs)) then Some(Last(inputs).value.generation)
    else KnownGeneration(Front(inputs))
  }

  /** The latest member id granted since the member was last unknown. */
  function GrantedMemberId(inputs: Inputs): (r: Option<string>)
    decreases |inputs|
  {
    if inputs == [] || Forgotten(Last(inputs)) then None
    else if Granted(Last(inputs)) then Some(Last(inputs).value.memberId)
    else GrantedMemberId(Front(inputs))
  }

  /** The assignment of the latest successful sync with no successful join or unknown member since. */
  function HeldAssignment(c: Config, inputs: Inputs): (r: Option<Assignment>)
    decreases |inputs|
  {
    if inputs == [] || Forgotten(Last(inputs)) || Joined(Last(inputs)) then None
    else if Synced(Last(inputs)) then
      match c.decode(Last(inputs).value.assignment) case Ok(assignment) => Some(assignment) case Err(_) => None
    else HeldAssignment(c, Front(inputs))
  }

  /** What a request says, as the conversation has it. */
  predicate Carries(c: Config, inputs: Inputs, request: Request)
    requires inputs != []
  {
    && request.groupId == c.groupId
    && match request
       case JoinGroup(_, groupType, rebalanceTimeout, sessionTimeout, memberId, reason, protocols) =>
         && groupType == CONSUMER
         && rebalanceTimeout == AsInt32(c.rebalanceTimeout) && sessionTimeout == AsInt32(c.sessionTimeout)
         && memberId == (if GrantedMemberId(inputs).None? then "" else GrantedMemberId(inputs).value)
         && Advertises(c, protocols, HeldAssignment(c, inputs), KnownGeneration(inputs))
         && reason == Reason(Last(inputs))
       case SyncGroup(_, memberId, generation, assignments, protocolName, protocolType) =>
         && Some(generation) == JoinedGeneration(inputs) && Some(memberId) == GrantedMemberId(inputs)
         && Shares(c, Last(inputs), assignments, protocolName, protocolType)
       case Heartbeat(_, memberId, generation) =>
         Some(generation) == JoinedGeneration(inputs) && Some(memberId) == GrantedMemberId(inputs)
  }

  /** The leader hands out what the assignor says, and the others nothing; the protocol is the one joined. */
  predicate Shares(
    c: Config, joined: Option<Response>, assignments: seq<Share>, protocolName: Option<string>,
    protocolType: Option<string>)
  {
    && Joined(joined)
    && joined.value.protocolName == protocolName && joined.value.protocolType == protocolType
    && if Elected(joined)
       then c.assign(AssignorNamed(protocolName), if joined.value.members.None? then [] else joined.value.members.value)
            == Ok(assignments)
       else assignments == []
  }

  /** Why a member joins again. */
  function Reason(input: Option<Response>): (r: string) {
    if Granted(input) then "join member id required"
    else if Interrupted(input) then "join after sync with rebalance"
    else if Forgotten(input) then "join after unknown member id"
    else if input.Some? && input.value.HeartbeatResponse? then "join after rebalance"
    else "join"
  }

  /** Each assignor once, each with the assignment held, as far as its version can say it. */
  predicate Advertises(
    c: Config, protocols: seq<Protocol>, held: Option<Assignment>, generation: Option<int>)
  {
    && |protocols| == |ASSIGNORS|
    && forall i :: 0 <= i < |protocols| ==>
         protocols[i] == Protocol(ASSIGNORS[i], Subscription(
           SubscriptionVersion(held),
           c.topics,
           if 1 <= SubscriptionVersion(held) then Some(Owned(held)) else None,
           if 2 <= SubscriptionVersion(held) then Some(if generation.None? then -1 else generation.value) else None))
  }

  // ---------------------------------------------------------------------
  // What holds of every conversation

  lemma {:induction false} ProtocolsAdvertise(
    c: Config, assignors: seq<string>, generation: Option<int>, held: Option<Assignment>)
    ensures var r := JoinProtocols(c, assignors, generation, held);
            && (assignors != [] ==> (r.Ok? <==> 0 <= SubscriptionVersion(held) <= LATEST_SUBSCRIPTION))
            && (r.Ok? ==>
                  && |r.value| == |assignors|
                  && forall i :: 0 <= i < |assignors| ==>
                       JoinProtocol(c, assignors[i], generation, held) == Ok(r.value[i]))
  {
    if assignors != [] {
      ProtocolsAdvertise(c, assignors[1..], generation, held);
    }
  }

  /** A join is refused, and nothing sent, just when the version held is not one that is encoded. */
  lemma JoinRequested(c: Config, m: MemberState, reason: string)
    requires m.Outsider?
    ensures var r := Rejoin(c, m, reason);
            && !r.Panicked?
            && (r.Emitted? <==> 0 <= SubscriptionVersion(m.assignment) <= LATEST_SUBSCRIPTION)
            && (r.Emitted? ==>
                  && r.request.JoinGroup? && r.request.groupId == c.groupId && r.request.groupType == CONSUMER
                  && r.request.rebalanceTimeout == AsInt32(c.rebalanceTimeout)
                  && r.request.sessionTimeout == AsInt32(c.sessionTimeout)
                  && r.request.memberId == (if m.lastMemberId.None? then "" else m.lastMemberId.value)
                  && r.request.reason == reason
                  && Advertises(c, r.request.protocols, m.assignment, m.lastGeneration))
  {
    ProtocolsAdvertise(c, ASSIGNORS, m.lastGeneration, m.assignment);
  }

  /** The state is what the conversation says it is. */
  predicate Reflects(c: Config, inputs: Inputs, m: MemberState) {
    && m.MemberId() == GrantedMemberId(inputs)
    && m.assignment == HeldAssignment(c, inputs)
    && m.GenerationId() == KnownGeneration(inputs)
    && (!m.Outsider? ==> m.GenerationId() == JoinedGeneration(inputs) && (m.Leader? <==> Leading(inputs)))
  }

  /**
   After every call: the state reflects the conversation, the member is an
   outsider exactly when it last asked to join, and the request carries what the
   conversation says.
   */
  lemma {:induction false} EveryRequestCarries(c: Config, inputs: Inputs)
    requires Emitting(c, inputs)
    ensures var w := Run(c, inputs);
            && Reflects(c, inputs, w.member)
            && (w.member.Outsider? <==> Joining(c, inputs))
            && (inputs != [] ==> Carries(c, inputs, w.outcome.request))
    decreases |inputs|
  {
    if inputs != [] {
      EveryRequestCarries(c, Front(inputs));
      StepReflects(c, inputs);
      StepFits(c, Run(c, Front(inputs)), Last(inputs));
    }
  }

  /** A call that returns leaves the state reflecting one more answer. */
  lemma {:induction false} StepReflects(c: Config, inputs: Inputs)
    requires inputs != [] && !Run(c, inputs).outcome.Panicked?
    requires Synced(Last(inputs)) ==> Run(c, inputs).outcome.Emitted?
    requires Reflects(c, Front(inputs), Run(c, Front(inputs)).member)
    ensures Reflects(c, inputs, Run(c, inputs).member)
  {
    var w, input := Run(c, Front(inputs)), Last(inputs);
    if input.Some? && input.value.JoinResponse? {
      JoinReflects(c, inputs, w);
    } else if input.Some? && input.value.SyncResponse? {
      SyncReflects(c, inputs, w);
    } else if input.Some? && input.value.HeartbeatResponse? {
      HeartbeatReflects(c, inputs, w);
    }
  }

  lemma {:induction false} JoinReflects(c: Config, inputs: Inputs, w: World)
    requires inputs != [] && Last(inputs).Some? && Last(inputs).value.JoinResponse?
    requires Reflects(c, Front(inputs), w.member) && !Step(c, w, Last(inputs)).outcome.Panicked?
    ensures Reflects(c, inputs, Step(c, w, Last(inputs)).member)
  {
    assert Step(c, w, Last(inputs)) == OnJoin(c, w, Last(inputs).value);
  }

  lemma {:induction false} SyncReflects(c: Config, inputs: Inputs, w: World)
    requires inputs != [] && Last(inputs).Some? && Last(inputs).value.SyncResponse?
    requires Reflects(c, Front(inputs), w.member) && !Step(c, w, Last(inputs)).outcome.Panicked?
    requires Synced(Last(inputs)) ==> Step(c, w, Last(inputs)).outcome.Emitted?
    ensures Reflects(c, inputs, Step(c, w, Last(inputs)).member)
  {
    assert Step(c, w, Last(inputs)) == OnSync(c, w, Last(inputs).value);
  }

  lemma {:induction false} HeartbeatReflects(c: Config, inputs: Inputs, w: World)
    requires inputs != [] && Last(inputs).Some? && Last(inputs).value.HeartbeatResponse?
    requires Reflects(c, Front(inputs), w.member) && !Step(c, w, Last(inputs)).outcome.Panicked?
    ensures Reflects(c, inputs, Step(c, w, Last(inputs)).member)
  {
    assert Step(c, w, Last(inputs)) == OnHeartbeat(c, w, Last(inputs).value);
  }

  /** What is returned, from the answer and the new state: a join outside the group, else a sync or a heartbeat. */
  predicate Fits(c: Config, w: World, input: Option<Response>) {
    w.outcome.Emitted? ==>
      var request := w.outcome.request;
      && request.groupId == c.groupId
      && (w.member.Outsider? <==> request.JoinGroup?)
      && match request
         case JoinGroup(_, groupType, rebalanceTimeout, sessionTimeout, memberId, reason, protocols) =>
           && groupType == CONSUMER
           && rebalanceTimeout == AsInt32(c.rebalanceTimeout) && sessionTimeout == AsInt32(c.sessionTimeout)
           && memberId == (if w.member.MemberId().None? then "" else w.member.MemberId().value)
           && Advertises(c, protocols, w.member.assignment, w.member.GenerationId())
           && reason == Reason(input)
         case SyncGroup(_, memberId, generation, assignments, protocolName, protocolType) =>
           && Some(generation) == w.member.GenerationId() && Some(memberId) == w.member.MemberId()
           && Shares(c, input, assignments, protocolName, protocolType)
         case Heartbeat(_, memberId, generation) =>
           Some(generation) == w.member.GenerationId() && Some(memberId) == w.member.MemberId()
  }

  lemma RejoinFits(c: Config, w: World, input: Option<Response>)
    requires w.member.Outsider?
    ensures Fits(c, w.(outcome := Rejoin(c, w.member, Reason(input))), input)
    ensures !Rejoin(c, w.member, Reason(input)).Panicked?
  {
    JoinRequested(c, w.member, Reason(input));
  }

  lemma StepFits(c: Config, w: World, input: Option<Response>)
    ensures Fits(c, Step(c, w, input), input)
    ensures Step(c, w, input).outcome.Panicked? <==> !Acceptable(w.member.Outsider?, input)
  {
    var next := Step(c, w, input);
    if next.member.Outsider? {
      RejoinFits(c, next, input);
    }
  }

  /** The next call panics exactly when the answer is not one the last request accepts. */
  lemma PanicsExactly(c: Config, inputs: Inputs, input: Option<Response>)
    requires Emitting(c, inputs)
    ensures Run(c, inputs + [input]).outcome.Panicked? <==> !Acceptable(Joining(c, inputs), input)
  {
    assert Front(inputs + [input]) == inputs;
    LastPanics(c, inputs + [input]);
  }

  lemma {:induction false} LastPanics(c: Config, inputs: Inputs)
    requires inputs != [] && Emitting(c, Front(inputs))
    ensures Run(c, inputs).outcome.Panicked? <==> !Acceptable(Joining(c, Front(inputs)), Last(inputs))
  {
    EveryRequestCarries(c, Front(inputs));
    StepFits(c, Run(c, Front(inputs)), Last(inputs));
  }

  /** Each answer is one that the request before it accepts. */
  predicate Answered(c: Config, inputs: Inputs)
    decreases |inputs|
  {
    inputs != [] ==>
      && Answered(c, Front(inputs))
      && Emitting(c, Front(inputs))
      && Acceptable(Joining(c, Front(inputs)), Last(inputs))
  }

  /** No conversation made of such answers ever panics, and only those do not. */
  lemma {:induction false} NeverPanics(c: Config, inputs: Inputs)
    ensures Unbroken(c, inputs) <==> Answered(c, inputs)
    decreases |inputs|
  {
    if inputs != [] && Emitting(c, Front(inputs)) {
      NeverPanics(c, Front(inputs));
      LastPanics(c, inputs);
    }
  }

  predicate Stuck(c: Config, inputs: Inputs)
    requires inputs != []
  {
    var input := Last(inputs);
    if Joined(input) then Elected(input) && LeaderSync(c, input.value).Failed?
    else if Synced(input) then c.decode(input.value.assignment).Err?
    else MustJoin(input) && !(0 <= SubscriptionVersion(HeldAssignment(c, inputs)) <= LATEST_SUBSCRIPTION)
  }

  /** Anything but a heartbeat with nothing to report. */
  predicate MustJoin(input: Option<Response>) {
    input.Some? && input.value.HeartbeatResponse? ==> input.value.code != NO_ERROR
  }

  /**
   A call fails exactly when the assignor does, the assignment does not decode,
   or the member has to join again holding an assignment of a version it cannot
   advertise.
   */
  lemma FailsExactly(c: Config, inputs: Inputs)
    requires inputs != [] && Unbroken(c, inputs)
    ensures Run(c, inputs).outcome.Failed? <==> Stuck(c, inputs)
  {
    var w, input := Run(c, Front(inputs)), Last(inputs);
    EveryRequestCarries(c, Front(inputs));
    StepFails(c, w, input);
    if !Joined(input) && !Synced(input) {
      StepReflects(c, inputs);
    }
  }

  lemma StepFails(c: Config, w: World, input: Option<Response>)
    requires !Step(c, w, input).outcome.Panicked?
    ensures var next := Step(c, w, input);
            && (Joined(input) ==> (next.outcome.Failed? <==> Elected(input) && LeaderSync(c, input.value).Failed?))
            && (Synced(input) ==> (next.outcome.Failed? <==> c.decode(input.value.assignment).Err?))
            && (!Joined(input) && !Synced(input) ==>
                  (next.outcome.Failed? <==>
                   MustJoin(input) && !(0 <= SubscriptionVersion(next.member.assignment) <= LATEST_SUBSCRIPTION)))
  {
    var next := Step(c, w, input);
    StepRejoins(c, w, input);
    if next.member.Outsider? {
      JoinRequested(c, next.member, Reason(input));
    }
  }

  /** Outside the group, a call that returns asks to join it, or fails to. */
  lemma StepRejoins(c: Config, w: World, input: Option<Response>)
    requires !Step(c, w, input).outcome.Panicked?
    ensures var next := Step(c, w, input);
            && (next.member.Outsider? <==> !Joined(input) && !Synced(input) && MustJoin(input))
            && (next.member.Outsider? ==> next.outcome == Rejoin(c, next.member, Reason(input)))
  {
  }

  /** The assignment of a successful sync is held until the next, or a successful join, or the member is unknown. */
  lemma {:induction false} HeldSince(c: Config, inputs: Inputs, k: nat)
    requires k < |inputs| && Synced(inputs[k])
    requires forall j :: k < j < |inputs| ==> !Synced(inputs[j]) && !Joined(inputs[j]) && !Forgotten(inputs[j])
    ensures HeldAssignment(c, inputs)
            == match c.decode(inputs[k].value.assignment) case Ok(held) => Some(held) case Err(_) => None
    decreases |inputs|
  {
    if k < |inputs| - 1 {
      HeldSince(c, Front(inputs), k);
    }
  }

  lemma {:induction false} NoneHeld(c: Config, inputs: Inputs)
    requires forall k :: 0 <= k < |inputs| && Synced(inputs[k]) ==> LetGo(inputs, k)
    ensures HeldAssignment(c, inputs) == None
    decreases |inputs|
  {
    if inputs != [] && !Joined(Last(inputs)) && !Forgotten(Last(inputs)) {
      forall k | 0 <= k < |Front(inputs)| && Synced(Front(inputs)[k])
        ensures LetGo(Front(inputs), k)
      {
        assert LetGo(inputs, k);
        var j :| k < j < |inputs| && (Joined(inputs[j]) || Forgotten(inputs[j]));
        assert Joined(Front(inputs)[j]) || Forgotten(Front(inputs)[j]);
      }
      assert !LetGo(inputs, |inputs| - 1);
      NoneHeld(c, Front(inputs));
    }
  }

  /** There was a successful join, or the member was unknown, since. */
  predicate LetGo(inputs: Inputs, k: nat) {
    exists j :: k < j < |inputs| && (Joined(inputs[j]) || Forgotten(inputs[j]))
  }

  /** A join for each of the four assignors, in order, with these in it. */
  predicate Offers(
    c: Config, request: Request, version: int, owned: Option<seq<TopicPartition>>, generation: Option<int>)
  {
    && request.JoinGroup? && request.groupType == "consumer"
    && var metadata := Subscription(version, c.topics, owned, generation);
       request.protocols == [Protocol("range", metadata), Protocol("roundrobin", metadata),
                             Protocol("uniform", metadata), Protocol("cooperative-sticky", metadata)]
  }

  /**
   In every run: a join by a member that holds an assignment is of that assignment's
   version, and advertises the very partitions in it from version one on, and the
   generation it knows of from version two.
   */
  lemma JoinAdvertisesHeld(c: Config, inputs: Inputs, k: nat, held: Assignment)
    requires Emitting(c, inputs) && inputs != [] && Run(c, inputs).outcome.request.JoinGroup?
    requires k < |inputs| && Synced(inputs[k]) && c.decode(inputs[k].value.assignment) == Ok(held)
    requires forall j :: k < j < |inputs| ==> !Synced(inputs[j]) && !Joined(inputs[j]) && !Forgotten(inputs[j])
    ensures 0 <= held.version <= 3
    ensures var known := if KnownGeneration(inputs).None? then -1 else KnownGeneration(inputs).value;
            Offers(c, Run(c, inputs).outcome.request, held.version,
                   if held.version == 0 then None else Some(held.partitions),
                   if held.version <= 1 then None else Some(known))
  {
    EveryRequestCarries(c, inputs);
    HeldSince(c, inputs, k);
    JoinOffers(c, inputs);
  }

  /** A join by one that holds none is of version three, and advertises that it owns nothing. */
  lemma JoinAdvertisesNothing(c: Config, inputs: Inputs)
    requires Emitting(c, inputs) && inputs != [] && Run(c, inputs).outcome.request.JoinGroup?
    requires forall k :: 0 <= k < |inputs| && Synced(inputs[k]) ==> LetGo(inputs, k)
    ensures var known := if KnownGeneration(inputs).None? then -1 else KnownGeneration(inputs).value;
            Offers(c, Run(c, inputs).outcome.request, 3, Some([]), Some(known))
  {
    EveryRequestCarries(c, inputs);
    NoneHeld(c, inputs);
    JoinOffers(c, inputs);
  }

  lemma JoinOffers(c: Config, inputs: Inputs)
    requires Emitting(c, inputs) && inputs != [] && Run(c, inputs).outcome.request.JoinGroup?
    requires Reflects(c, inputs, Run(c, inputs).member)
    ensures var held := HeldAssignment(c, inputs);
            var known := if KnownGeneration(inputs).None? then -1 else KnownGeneration(inputs).value;
            && (held.Some? ==>
                  && 0 <= held.value.version <= 3
                  && Offers(c, Run(c, inputs).outcome.request, held.value.version,
                            if held.value.version == 0 then None else Some(held.value.partitions),
                            if held.value.version <= 1 then None else Some(known)))
            && (held.None? ==> Offers(c, Run(c, inputs).outcome.request, 3, Some([]), Some(known)))
  {
    var w, input := Run(c, Front(inputs)), Last(inputs);
    var next := Run(c, inputs);
    StepFits(c, w, input);
    StepRejoins(c, w, input);
    JoinRequested(c, next.member, Reason(input));
    var protocols := next.outcome.request.protocols;
    assert protocols == [protocols[0], protocols[1], protocols[2], protocols[3]];
  }

  /** A leader asks the assignor that the group joined with, if it is one of the four, and otherwise "range". */
  lemma LeaderAssigns(c: Config, inputs: Inputs)
    requires Emitting(c, inputs) && inputs != [] && Elected(Last(inputs))
    ensures var r, request := Last(inputs).value, Run(c, inputs).outcome.request;
            var members := if r.members.None? then [] else r.members.value;
            && request.SyncGroup?
            && (r.protocolName in {Some("range"), Some("roundrobin"), Some("uniform"), Some("cooperative-sticky")} ==>
                  c.assign(r.protocolName.value, members) == Ok(request.assignments))
            && (r.protocolName !in {Some("range"), Some("roundrobin"), Some("uniform"), Some("cooperative-sticky")} ==>
                  c.assign("range", members) == Ok(request.assignments))
  {
    EveryRequestCarries(c, inputs);
    EveryRequestCarries(c, Front(inputs));
    StepFits(c, Run(c, Front(inputs)), Last(inputs));
  }

  /** A follower that is given an assignment, and then told that the group rebalances. */
  function RebalanceAfter(generation: int, memberId: string, leader: string, assignment: Bytes): (r: Inputs) {
    [None,
     Some(JoinResponse(NO_ERROR, generation, None, None, leader, memberId, None)),
     Some(SyncResponse(NO_ERROR, assignment)),
     Some(HeartbeatResponse(REBALANCE_IN_PROGRESS))]
  }

  /** What becomes of it: the last request is a join that advertises the assignment, or there is none. */
  lemma RebalanceEnds(
    c: Config, generation: int, memberId: string, leader: string, assignment: Bytes, held: Assignment)
    requires leader != memberId && assignment != [] && c.decode(assignment) == Ok(held)
    ensures var inputs := RebalanceAfter(generation, memberId, leader, assignment);
            && Emitting(c, Front(inputs))
            && Run(c, inputs).member == Outsider(Some(generation), Some(memberId), Some(held))
            && Run(c, inputs).outcome == Rejoin(c, Run(c, inputs).member, "join after rebalance")
  {
    var inputs := RebalanceAfter(generation, memberId, leader, assignment);
    var synced := Front(inputs);
    var joined := Front(synced);
    var asked := Front(joined);
    assert Front(asked) == [];
    JoinRequested(c, INITIAL, "join");
    assert Run(c, asked) == Step(c, Run(c, []), None) && Emitting(c, []);
    assert Run(c, asked).member == INITIAL && Emitting(c, asked);
    assert Run(c, joined) == OnJoin(c, Run(c, asked), Last(joined).value);
    assert Run(c, joined).member == Follower(generation, memberId, None) && Emitting(c, joined);
    assert Run(c, synced) == OnSync(c, Run(c, joined), Last(synced).value);
    assert Run(c, synced).member == Follower(generation, memberId, Some(held)) && Emitting(c, synced);
  }

  /** Of a version over three, or under zero, it cannot be advertised: the member fails, and has left the group. */
  lemma UnsupportedAssignmentIsFatal(
    c: Config, generation: int, memberId: string, leader: string, assignment: Bytes, held: Assignment)
    requires leader != memberId && assignment != [] && c.decode(assignment) == Ok(held)
    requires !(0 <= held.version <= LATEST_SUBSCRIPTION)
    ensures Run(c, RebalanceAfter(generation, memberId, leader, assignment)).outcome
            == Failed(UnsupportedSubscription(held.version))
  {
    RebalanceEnds(c, generation, memberId, leader, assignment, held);
  }

  /** Of version zero it is not advertised: the member asks to join as if it owned nothing. */
  lemma FirstAssignmentIsNotAdvertised(
    c: Config, generation: int, memberId: string, leader: string, assignment: Bytes, held: Assignment)
    requires leader != memberId && assignment != [] && c.decode(assignment) == Ok(held)
    requires held.version == 0 && held.partitions != []
    ensures var outcome := Run(c, RebalanceAfter(generation, memberId, leader, assignment)).outcome;
            && outcome.Emitted? && outcome.request.JoinGroup? && |outcome.request.protocols| == |ASSIGNORS|
            && forall i :: 0 <= i < |ASSIGNORS| ==> outcome.request.protocols[i].metadata.owned == None
  {
    RebalanceEnds(c, generation, memberId, leader, assignment, held);
    JoinRequested(c, Outsider(Some(generation), Some(memberId), Some(held)), "join after rebalance");
  }

  /** A join carries a timeout as it is configured exactly if it is under 2^31 milliseconds. */
  lemma TimeoutCarried(timeout: nat)
    ensures AsInt32(timeout) == timeout <==> timeout < 0x8000_0000
    ensures -0x8000_0000 <= AsInt32(timeout) < 0x8000_0000 && (timeout - AsInt32(timeout)) % U32_LIMIT == 0
  {
    Pow256Values();
  }

  // ---------------------------------------------------------------------
  // The tally of error codes, and the callback

  predicate HasCode(input: Option<Response>, code: int) {
    input.Some? && !input.value.OtherResponse? && input.value.code == code
  }

  function Count(inputs: Inputs, code: int): (r: nat)
    decreases |inputs|
  {
    if inputs == [] then 0 else Count(Front(inputs), code) + (if HasCode(Last(inputs), code) then 1 else 0)
  }

  function Responses(inputs: Inputs): (r: nat)
    decreases |inputs|
  {
    if inputs == [] then 0 else Responses(Front(inputs)) + (if Last(inputs).Some? then 1 else 0)
  }

  const HANDLED := {NO_ERROR, NOT_COORDINATOR, UNKNOWN_MEMBER_ID, REBALANCE_IN_PROGRESS, MEMBER_ID_REQUIRED}

  function Total(errors: map<int, nat>): (r: nat) {
    TallyOf(errors, NO_ERROR) + TallyOf(errors, NOT_COORDINATOR) + TallyOf(errors, UNKNOWN_MEMBER_ID)
    + TallyOf(errors, REBALANCE_IN_PROGRESS) + TallyOf(errors, MEMBER_ID_REQUIRED)
  }

  /** A call that returns counts the code of its answer, once, and no other. */
  lemma StepTallies(c: Config, w: World, input: Option<Response>)
    requires !Step(c, w, input).outcome.Panicked?
    ensures input.None? ==> Step(c, w, input).errors == w.errors
    ensures input.Some? ==>
              && !input.value.OtherResponse? && input.value.code in HANDLED
              && Step(c, w, input).errors == Tallied(w.errors, input.value.code)
  {
    StepFits(c, w, input);
  }

  lemma TalliedOnce(errors: map<int, nat>, code: int, other: int)
    requires code in HANDLED
    ensures TallyOf(Tallied(errors, code), other) == TallyOf(errors, other) + (if other == code then 1 else 0)
    ensures Total(Tallied(errors, code)) == Total(errors) + 1
  {
  }

  /** No call panicked; some may have failed, and the object was used after them. */
  predicate Panicless(c: Config, inputs: Inputs)
    decreases |inputs|
  {
    inputs != [] ==> Panicless(c, Front(inputs)) && !Run(c, inputs).outcome.Panicked?
  }

  /** The tally holds of each code how many answers had it, and of no other code anything. */
  lemma {:induction false} TallyIsConserved(c: Config, inputs: Inputs, code: int)
    requires Panicless(c, inputs)
    ensures TallyOf(Run(c, inputs).errors, code) == Count(inputs, code)
    ensures Run(c, inputs).errors.Keys <= HANDLED
    ensures Total(Run(c, inputs).errors) == Responses(inputs)
    decreases |inputs|
  {
    if inputs != [] {
      TallyIsConserved(c, Front(inputs), code);
      var w, input := Run(c, Front(inputs)), Last(inputs);
      StepTallies(c, w, input);
      if input.Some? {
        TalliedOnce(w.errors, input.value.code, code);
      }
    }
  }

  /** The assignments of the successful syncs, in order. */
  function Announced(c: Config, inputs: Inputs): (r: seq<Assignment>)
    decreases |inputs|
  {
    if inputs == [] then []
    else
      var before := Announced(c, Front(inputs));
      if !Synced(Last(inputs)) then before
      else match c.decode(Last(inputs).value.assignment)
        case Ok(assignment) => before + [assignment]
        case Err(_) => before
  }

  lemma StepNotifies(c: Config, w: World, input: Option<Response>)
    requires !Step(c, w, input).outcome.Panicked?
    ensures Step(c, w, input).notified
            == if Synced(input) && c.decode(input.value.assignment).Ok?
               then Notified(c, w.notified, c.decode(input.value.assignment).value)
               else w.notified
  {
  }

  /** The callback, if there is one, is given each of them once and in order, and nothing else. */
  lemma {:induction false} EveryAssignmentIsAnnounced(c: Config, inputs: Inputs)
    requires Panicless(c, inputs)
    ensures Run(c, inputs).notified == if c.notifies then Announced(c, inputs) else []
    decreases |inputs|
  {
    if inputs != [] {
      EveryAssignmentIsAnnounced(c, Front(inputs));
      StepNotifies(c, Run(c, Front(inputs)), Last(inputs));
    }
  }

  // ---------------------------------------------------------------------
  // The object

  class GroupConsumer {
    const config: Config
    var member: MemberState
    var errors: map<int, nat>
    ghost var notified: seq<Assignment>
    ghost var inputs: Inputs
    ghost var outcome: Outcome

    ghost predicate Valid()
      reads this
    {
      Run(config, inputs) == World(member, errors, notified, outcome)
    }

    constructor (config: Config)
      ensures Valid() && this.config == config && inputs == []
    {
      this.config := config;
      member := INITIAL;
      errors := map[];
      notified := [];
      inputs := [];
      outcome := Panicked;
    }

    method Tally(code: int)
      modifies this`errors
      ensures errors == Tallied(old(errors), code)
    {
      errors := errors[code := (if code in errors then errors[code] else 0) + 1];
    }

    /** One call: the object is then in the state of a conversation with one more answer. */
    method NextAction(input: Option<Response>) returns (r: Outcome)
      requires Valid()
      modifies this
      ensures Valid() && inputs == old(inputs) + [input] && r == outcome
    {
      ghost var w := Run(config, inputs);
      inputs := inputs + [input];
      assert Front(inputs) == old(inputs);
      match (member, input) {
        case (Outsider(_, _, _), None) =>
          r := Rejoin(config, member, "join");
        case (Outsider(_, _, _), Some(JoinResponse(_, _, _, _, _, _, _))) =>
          r := AfterJoin(input.value, w);
        case (Follower(_, _, _), Some(SyncResponse(_, _))) =>
          r := AfterSync(input.value, w);
        case (Leader(_, _, _), Some(SyncResponse(_, _))) =>
          r := AfterSync(input.value, w);
        case (Follower(_, _, _), Some(HeartbeatResponse(_))) =>
          r := AfterHeartbeat(input.value, w);
        case (Leader(_, _, _), Some(HeartbeatResponse(_))) =>
          r := AfterHeartbeat(input.value, w);
        case _ =>
          r := Panicked;
      }
      outcome := r;
    }

    method AfterJoin(response: Response, ghost w: World) returns (r: Outcome)
      requires response.JoinResponse? && member.Outsider? && w.member == member && w.errors == errors
      requires w.notified == notified
      modifies this`member, this`errors
      ensures World(member, errors, notified, r) == OnJoin(config, w, response)
    {
      if response.code == NOT_COORDINATOR {
        Tally(NOT_COORDINATOR);
        r := Rejoin(config, member, "join");
      } else if response.code == MEMBER_ID_REQUIRED {
        Tally(MEMBER_ID_REQUIRED);
        member := Outsider(Some(response.generation), Some(response.memberId), member.assignment);
        r := Rejoin(config, member, "join member id required");
      } else if response.code == NO_ERROR && response.leader == response.memberId {
        Tally(NO_ERROR);
        member := Leader(response.generation, response.memberId, None);
        r := LeaderSync(config, response);
      } else if response.code == NO_ERROR {
        Tally(NO_ERROR);
        member := Follower(response.generation, response.memberId, None);
        r := SyncRequest(config, response, []);
      } else {
        r := Panicked;
      }
    }

    method AfterSync(response: Response, ghost w: World) returns (r: Outcome)
      requires response.SyncResponse? && !member.Outsider? && w.member == member && w.errors == errors
      requires w.notified == notified
      modifies this`member, this`errors, this`notified
      ensures World(member, errors, notified, r) == OnSync(config, w, response)
    {
      if response.code == NO_ERROR {
        Tally(NO_ERROR);
        if response.assignment == [] {
          return Panicked;
        }
        var decoded := config.decode(response.assignment);
        if decoded.Err? {
          return Failed(decoded.error);
        }
        member := member.Holding(decoded.value);
        if config.notifies {
          notified := notified + [decoded.value];
        }
        r := HeartbeatRequest(config, member);
      } else if response.code == REBALANCE_IN_PROGRESS {
        Tally(REBALANCE_IN_PROGRESS);
        if response.assignment != [] {
          return Panicked;
        }
        member := Outsider(None, Some(member.memberId), member.assignment);
        r := Rejoin(config, member, "join after sync with rebalance");
      } else {
        r := Panicked;
      }
    }

    method AfterHeartbeat(response: Response, ghost w: World) returns (r: Outcome)
      requires response.HeartbeatResponse? && !member.Outsider? && w.member == member && w.errors == errors
      requires w.notified == notified
      modifies this`member, this`errors
      ensures World(member, errors, notified, r) == OnHeartbeat(config, w, response)
    {
      if response.code == UNKNOWN_MEMBER_ID {
        Tally(UNKNOWN_MEMBER_ID);
        member := INITIAL;
        r := Rejoin(config, member, "join after unknown member id");
      } else if response.code == REBALANCE_IN_PROGRESS {
        Tally(REBALANCE_IN_PROGRESS);
        member := Outsider(Some(member.generation), Some(member.memberId), member.assignment);
        r := Rejoin(config, member, "join after rebalance");
      } else if response.code == NO_ERROR {
        Tally(NO_ERROR);
        r := HeartbeatRequest(config, member);
      } else {
        r := Panicked;
      }
    }
  }
}
