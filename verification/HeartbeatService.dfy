/**
 The service around a group member (`ConsumerGroupService`): it puts the member's
 next request to the coordinator and counts the heartbeats answered in a row.
 */
module HeartbeatService {
  import opened Base
  import opened Consumer

  datatype Exchange = Exchange(request: Request, response: Response)

  /** How many exchanges at the end were answered with a heartbeat response. */
  function Trailing(xs: seq<Exchange>): (r: nat)
    ensures r <= |xs|
  {
    if xs == [] || !xs[|xs| - 1].response.HeartbeatResponse? then 0 else Trailing(xs[..|xs| - 1]) + 1
  }

  /** That many, and no more. */
  lemma {:induction false} TrailingIsTheRun(xs: seq<Exchange>)
    ensures forall k :: |xs| - Trailing(xs) <= k < |xs| ==> xs[k].response.HeartbeatResponse?
    ensures Trailing(xs) < |xs| ==> !xs[|xs| - Trailing(xs) - 1].response.HeartbeatResponse?
  {
    if xs != [] && xs[|xs| - 1].response.HeartbeatResponse? {
      TrailingIsTheRun(xs[..|xs| - 1]);
    }
  }

  lemma OneMore(xs: seq<Exchange>, x: Exchange)
    ensures Trailing(xs + [x]) == if x.response.HeartbeatResponse? then Trailing(xs) + 1 else 0
  {
    assert (xs + [x])[..|xs|] == xs;
  }

  /** What `stable_heartbeat_count` should say. */
  function Stable(xs: seq<Exchange>): (r: Option<nat>) {
    if Trailing(xs) == 0 then None else Some(Trailing(xs))
  }

  /** The input that goes with feeding each output back. */
  function Fed(xs: seq<Exchange>): (r: Option<Response>) {
    if xs == [] then None else Some(xs[|xs| - 1].response)
  }

  /** The member was given its own answers, in order, and these are the requests it made. */
  predicate FedBack(c: Config, inputs: Inputs, xs: seq<Exchange>) {
    && |inputs| == |xs|
    && Emitting(c, inputs)
    && forall i :: 0 <= i < |xs| ==> FedAt(c, inputs, xs, i)
  }

  predicate FedAt(c: Config, inputs: Inputs, xs: seq<Exchange>, i: nat)
    requires i < |xs| == |inputs|
  {
    inputs[i] == Fed(xs[..i]) && Run(c, inputs[..i + 1]).outcome == Emitted(xs[i].request)
  }

  lemma {:induction false} EmittingUpTo(c: Config, inputs: Inputs, n: nat)
    requires n <= |inputs| && Emitting(c, inputs)
    ensures Emitting(c, inputs[..n])
    decreases |inputs|
  {
    if n < |inputs| {
      EmittingUpTo(c, Front(inputs), n);
      assert Front(inputs)[..n] == inputs[..n];
    } else {
      assert inputs[..n] == inputs;
    }
  }

  /** Heartbeat responses leave the generation of the latest join as it was. */
  lemma {:induction false} HeartbeatsKeepGeneration(c: Config, inputs: Inputs, xs: seq<Exchange>, i: nat, j: nat)
    requires FedBack(c, inputs, xs) && i <= j < |xs|
    requires forall k :: i <= k < j ==> xs[k].response.HeartbeatResponse?
    ensures JoinedGeneration(inputs[..i + 1]) == JoinedGeneration(inputs[..j + 1])
  {
    if i < j {
      HeartbeatsKeepGeneration(c, inputs, xs, i, j - 1);
      assert Front(inputs[..j + 1]) == inputs[..j];
      assert FedAt(c, inputs, xs, j);
    }
  }

  lemma HeartbeatGeneration(c: Config, inputs: Inputs, xs: seq<Exchange>, i: nat)
    requires FedBack(c, inputs, xs) && i < |xs| && xs[i].request.Heartbeat?
    ensures Some(xs[i].request.generation) == JoinedGeneration(inputs[..i + 1])
  {
    assert FedAt(c, inputs, xs, i);
    EmittingUpTo(c, inputs, i + 1);
    EveryRequestCarries(c, inputs[..i + 1]);
  }

  /** The heartbeat requests of the run that is counted all carry the same generation. */
  lemma OneGeneration(c: Config, inputs: Inputs, xs: seq<Exchange>, i: nat, j: nat)
    requires FedBack(c, inputs, xs)
    requires |xs| - Trailing(xs) <= i <= j < |xs|
    requires xs[i].request.Heartbeat? && xs[j].request.Heartbeat?
    ensures xs[i].request.generation == xs[j].request.generation
  {
    TrailingIsTheRun(xs);
    HeartbeatsKeepGeneration(c, inputs, xs, i, j);
    HeartbeatGeneration(c, inputs, xs, i);
    HeartbeatGeneration(c, inputs, xs, j);
  }

  datatype Served = Answer(response: Response) | Refused(error: Error) | Aborted

  class ConsumerGroupService {
    const consumer: GroupConsumer
    var heartbeats: Option<nat>
    ghost var exchanges: seq<Exchange>

    ghost predicate Valid()
      reads this, consumer
    {
      consumer.Valid() && heartbeats == Stable(exchanges)
    }

    /** Whether each output so far was the next input. */
    ghost predicate Looped()
      reads this, consumer
    {
      FedBack(consumer.config, consumer.inputs, exchanges)
    }

    constructor (config: Config)
      ensures Valid() && Looped() && fresh(consumer) && exchanges == []
    {
      consumer := new GroupConsumer(config);
      heartbeats := None;
      exchanges := [];
    }

    method StableHeartbeatCount() returns (r: Option<nat>)
      requires Valid()
      ensures r == Stable(exchanges)
    {
      r := heartbeats;
    }

    /**
     One exchange with the coordinator, `inner`. Only an exchange that was
     answered changes the count.
     */
    method Serve(input: Option<Response>, inner: Request -> Result<Response>) returns (r: Served)
      requires Valid()
      modifies this, consumer
      ensures Valid()
      ensures consumer.inputs == old(consumer.inputs) + [input]
      ensures r == match consumer.outcome
                   case Panicked => Aborted
                   case Failed(e) => Refused(e)
                   case Emitted(request) =>
                     match inner(request) case Ok(response) => Answer(response) case Err(e) => Refused(e)
      ensures r.Answer? ==> exchanges == old(exchanges) + [Exchange(consumer.outcome.request, r.response)]
      ensures !r.Answer? ==> exchanges == old(exchanges)
      ensures r.Answer? && old(Looped()) && input == Fed(old(exchanges)) ==> Looped()
    {
      ghost var before := consumer.inputs;
      var action := consumer.NextAction(input);
      match action {
        case Panicked => return Aborted;
        case Failed(e) => return Refused(e);
        case Emitted(request) =>
          var answer := inner(request);
          if answer.Err? {
            return Refused(answer.error);
          }
          ghost var was := exchanges;
          Record(request, answer.value);
          LoopsOn(consumer.config, before, was, input, exchanges[|was|]);
          return Answer(answer.value);
      }
    }

    /** A heartbeat response is one more; anything else takes the count away. */
    method Record(request: Request, output: Response)
      requires heartbeats == Stable(exchanges)
      modifies this`heartbeats, this`exchanges
      ensures heartbeats == Stable(exchanges)
      ensures exchanges == old(exchanges) + [Exchange(request, output)]
    {
      if output.HeartbeatResponse? {
        heartbeats := Some((if heartbeats.None? then 0 else heartbeats.value) + 1);
      } else {
        heartbeats := None;
      }
      OneMore(exchanges, Exchange(request, output));
      exchanges := exchanges + [Exchange(request, output)];
    }
  }

  lemma StillFedAt(c: Config, inputs: Inputs, xs: seq<Exchange>, input: Option<Response>, x: Exchange, i: nat)
    requires i < |xs| == |inputs| && FedAt(c, inputs, xs, i)
    ensures FedAt(c, inputs + [input], xs + [x], i)
  {
    assert (xs + [x])[..i] == xs[..i];
    assert (inputs + [input])[..i + 1] == inputs[..i + 1];
  }

  /** One more exchange, fed what the last one returned. */
  lemma LoopsOn(c: Config, inputs: Inputs, xs: seq<Exchange>, input: Option<Response>, x: Exchange)
    requires Run(c, inputs + [input]).outcome == Emitted(x.request)
    ensures FedBack(c, inputs, xs) && input == Fed(xs) ==> FedBack(c, inputs + [input], xs + [x])
  {
    if FedBack(c, inputs, xs) && input == Fed(xs) {
      var more, ys := inputs + [input], xs + [x];
      assert Front(more) == inputs;
      assert more[..|more|] == more && ys[..|xs|] == xs;
      assert FedAt(c, more, ys, |xs|);
      forall i | 0 <= i < |xs| ensures FedAt(c, more, ys, i) {
        StillFedAt(c, inputs, xs, input, x, i);
      }
    }
  }
}
