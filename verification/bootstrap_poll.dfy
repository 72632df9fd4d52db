/** Waiting for the bootstrap data: the outer loop around the client's own retries. */
module BootstrapPoll {
  import opened Bytes
  import opened Wrappers
  import opened CallbackClient

  const POLL_INTERVAL: nat := 5000
  const DEFAULT_POLL_BUDGET_SECS: u64 := 1800

  datatype PollError = BootstrapTimeout | BootstrapAborted(error: ClientError)

  datatype PollVerdict = NotReady | Abort

  function ClassifyPoll(e: ClientError): PollVerdict {
    match e
    case Http(code) =>
      if code == 401 || code == 403 then Abort
      else if code == 404 then NotReady
      else if 500 <= code < 600 then NotReady
      else Abort
    case BootstrapTooLarge => Abort
    case RetriesExhausted(_) => NotReady
    case Transport => NotReady
    case BodyBroken => NotReady
    case _ => Abort
  }

  /** Without a timeout of its own a host waits for 360 intervals of five seconds, which is half an hour. */
  lemma DefaultBudget()
    ensures PollBudgetIterations(None) == 360 && PollBudgetIterations(None) * POLL_INTERVAL == 30 * 60 * 1000
  {
  }

  /** The budget in poll intervals, within one and the largest count there is. */
  function PollBudgetIterations(timeoutSecs: Option<u64>): (r: u32)
    ensures var budget := if timeoutSecs.Some? then timeoutSecs.value else DEFAULT_POLL_BUDGET_SECS;
            && 1 <= r
            && (r > 1 ==> 1000 * budget >= r * POLL_INTERVAL)
            && (r < U32_MAX ==> 1000 * budget < (r + 1) * POLL_INTERVAL)
  {
    var budget := if timeoutSecs.Some? then timeoutSecs.value else DEFAULT_POLL_BUDGET_SECS;
    var polls := budget / 5;
    if polls < 1 then 1 else if polls > U32_MAX then U32_MAX else polls
  }

  function Fetch(replies: Replies, at: nat): Run<Result<seq<byte>, ClientError>> {
    Call(GetBootstrap, replies, at)
  }

  function PollFrom(replies: Replies, at: nat, attempt: nat, maxPolls: nat): Run<Result<seq<byte>, PollError>>
    requires attempt <= maxPolls
    decreases maxPolls - attempt
  {
    if attempt == maxPolls then Run(Err(BootstrapTimeout), 0, 0)
    else
      var fetch := Fetch(replies, at);
      match fetch.result
      case Ok(data) => Run(Ok(data), fetch.requests, fetch.slept)
      case Err(e) =>
        if ClassifyPoll(e).Abort? then Run(Err(BootstrapAborted(e)), fetch.requests, fetch.slept)
        else
          var rest := PollFrom(replies, at + fetch.requests, attempt + 1, maxPolls);
          Run(rest.result, fetch.requests + rest.requests,
              fetch.slept + rest.slept + if attempt + 1 < maxPolls then POLL_INTERVAL else 0)
  }

  method PollBootstrap(wire: Wire, maxPolls: u32) returns (r: Result<seq<byte>, PollError>)
    modifies wire
    ensures var run := PollFrom(wire.replies, old(wire.requests), 0, maxPolls);
            r == run.result && wire.requests == old(wire.requests) + run.requests
                && wire.slept == old(wire.slept) + run.slept
  {
    hide Call, ClassifyPoll;
    ghost var whole := PollFrom(wire.replies, wire.requests, 0, maxPolls);
    for attempt := 0 to maxPolls
      invariant var rest := PollFrom(wire.replies, wire.requests, attempt, maxPolls);
                && whole.result == rest.result
                && old(wire.requests) + whole.requests == wire.requests + rest.requests
                && old(wire.slept) + whole.slept == wire.slept + rest.slept
    {
      var fetched := wire.Perform(GetBootstrap);
      match fetched
      case Ok(data) => return Ok(data);
      case Err(e) =>
        if ClassifyPoll(e).Abort? {
          return Err(BootstrapAborted(e));
        }
        if attempt + 1 < maxPolls {
          wire.Sleep(POLL_INTERVAL);
        }
    }
    return Err(BootstrapTimeout);
  }

  // ---------------------------------------------------------------- bounds

  /** At most 5P requests, and at most 7500P + 5000(P - 1) ms asleep. */
  lemma {:induction false} PollBounds(replies: Replies, at: nat, attempt: nat, maxPolls: nat)
    requires attempt < maxPolls
    ensures var run := PollFrom(replies, at, attempt, maxPolls);
            var polls := maxPolls - attempt;
            1 <= run.requests <= 5 * polls && run.slept <= 7500 * polls + POLL_INTERVAL * (polls - 1)
    decreases maxPolls - attempt
  {
    hide Call, ClassifyPoll;
    var fetch := Fetch(replies, at);
    CallErrors(GetBootstrap, replies, at);
    if fetch.result.Err? && ClassifyPoll(fetch.result.error).NotReady? && attempt + 1 < maxPolls {
      PollBounds(replies, at + fetch.requests, attempt + 1, maxPolls);
    }
  }

  /** A server that never answers. */
  function Silence(): Replies {
    (n: nat) => NoAnswer
  }

  lemma {:induction false} SilentRetries(at: nat, n: nat, last: Option<ClientError>)
    requires n < MAX_ATTEMPTS
    ensures RetryFrom(GetBootstrap, Silence(), at, n, MAX_ATTEMPTS, last)
            == Run(Err(RetriesExhausted(Transport)), MAX_ATTEMPTS - n, Backoffs(n, MAX_ATTEMPTS - n - 1))
    decreases MAX_ATTEMPTS - n
  {
    hide Backoff;
    if n + 1 < MAX_ATTEMPTS {
      SilentRetries(at + 1, n + 1, Some(Transport));
    }
  }

  /** The bounds are met: no smaller ones hold. */
  lemma {:induction false} PollBoundsAreTight(at: nat, attempt: nat, maxPolls: nat)
    requires attempt < maxPolls
    ensures var polls := maxPolls - attempt;
            PollFrom(Silence(), at, attempt, maxPolls)
            == Run(Err(BootstrapTimeout), 5 * polls, 7500 * polls + POLL_INTERVAL * (polls - 1))
    decreases maxPolls - attempt
  {
    SilentRetries(at, 0, None);
    BackoffsUpToFour(4);
    hide RetryFrom, Backoffs;
    if attempt + 1 < maxPolls {
      PollBoundsAreTight(at + 5, attempt + 1, maxPolls);
    }
  }

  /**
   A silent server makes the host sleep longer than the whole budget the polls were counted from,
   for exactly these budgets: up to seven seconds, and from ten on until the count is clamped by far.
   */
  lemma SilenceOutlastsBudgetIff(at: nat, budgetSecs: u64)
    ensures PollFrom(Silence(), at, 0, PollBudgetIterations(Some(budgetSecs))).slept > 1000 * budgetSecs
            <==> budgetSecs <= 7 || (10 <= budgetSecs && 1000 * budgetSecs < 12500 * U32_MAX - 5000)
  {
    PollBoundsAreTight(at, 0, PollBudgetIterations(Some(budgetSecs)));
    hide PollFrom;
  }

  // ---------------------------------------------------------------- what decides

  /** The first request of the poll that is `k` polls further on. */
  function FetchStart(replies: Replies, at: nat, k: nat): nat
    decreases k
  {
    if k == 0 then at else FetchStart(replies, at + Fetch(replies, at).requests, k - 1)
  }

  /** What one fetch says about the wait; None to go on. */
  function Decision(replies: Replies, at: nat): Option<Result<seq<byte>, PollError>> {
    var result := Fetch(replies, at).result;
    if result.Ok? then Some(Ok(result.value))
    else if result.error == BootstrapTooLarge || (result.error.Http? && result.error.code != 404)
    then Some(Err(BootstrapAborted(result.error)))
    else None
  }

  /**
   No bare 408, 429 or 5xx reaches the classification, which so stops for every status but 404 and for an over-long
   body.
   */
  lemma ClassifiesDecision(replies: Replies, at: nat)
    ensures var result := Fetch(replies, at).result;
            && (result.Err? && result.error.Http? ==>
                  var code := result.error.code; code != 408 && code != 429 && !(500 <= code <= 599))
            && (result.Err? ==> (ClassifyPoll(result.error).Abort? <==> Decision(replies, at).Some?))
  {
    hide Call;
    CallErrors(GetBootstrap, replies, at);
  }

  /** The wait ends with the first fetch that decides, or with the last one. */
  lemma {:induction false} PollDecides(replies: Replies, at: nat, attempt: nat, maxPolls: nat) returns (k: nat)
    requires attempt <= maxPolls
    ensures k <= maxPolls - attempt
    ensures forall i: nat :: i < k ==> Decision(replies, FetchStart(replies, at, i)).None?
    ensures var result := PollFrom(replies, at, attempt, maxPolls).result;
            if k == maxPolls - attempt then result == Err(BootstrapTimeout)
            else Decision(replies, FetchStart(replies, at, k)) == Some(result)
    decreases maxPolls - attempt
  {
    hide Fetch, ClassifyPoll;
    k := 0;
    if attempt < maxPolls {
      ClassifiesDecision(replies, at);
      if Decision(replies, at).None? {
        var next := at + Fetch(replies, at).requests;
        var rest := PollDecides(replies, next, attempt + 1, maxPolls);
        k := rest + 1;
        forall i: nat | i < k
          ensures Decision(replies, FetchStart(replies, at, i)).None?
        {
          if i > 0 {
            assert FetchStart(replies, at, i) == FetchStart(replies, next, i - 1);
          }
        }
      }
    }
  }

  // ---------------------------------------------------------------- reply by reply

  /** What one reply decides about the whole wait; None when the host goes on asking. */
  function ReplyDecides(reply: Reply): Option<Result<seq<byte>, PollError>> {
    match reply
    case NoAnswer => None
    case Answer(code, body, broken) =>
      if 200 <= code <= 299 then
        if |body| > 4 * 1024 * 1024 then Some(Err(BootstrapAborted(BootstrapTooLarge)))
        else if broken then None
        else Some(Ok(body))
      else if code == 404 || code == 408 || code == 429 || 500 <= code <= 599 then None
      else Some(Err(BootstrapAborted(Http(code))))
  }

  /**
   The wait reads replies in order and ends with the first one that decides: a whole body within the
   limit, a body over it, or a status that is neither a success, nor 404, 408, 429 or 5xx. When it times
   out it has seen none.
   */
  lemma {:induction false} PollByReplies(replies: Replies, at: nat, attempt: nat, maxPolls: nat)
    requires attempt < maxPolls
    ensures var run := PollFrom(replies, at, attempt, maxPolls);
            && run.requests > 0
            && (forall i :: at <= i < at + run.requests - 1 ==> ReplyDecides(replies(i)).None?)
            && match ReplyDecides(replies(at + run.requests - 1))
               case Some(result) => run.result == result
               case None => run.result == Err(BootstrapTimeout)
    decreases maxPolls - attempt
  {
    FetchByReplies(replies, at);
    hide Call, ReplyDecides;
    var fetch := Fetch(replies, at);
    if fetch.result.Err? && ClassifyPoll(fetch.result.error).NotReady? && attempt + 1 < maxPolls {
      PollByReplies(replies, at + fetch.requests, attempt + 1, maxPolls);
    }
  }

  /** One fetch: its last reply decides exactly if the fetch does. */
  lemma FetchByReplies(replies: Replies, at: nat)
    ensures var fetch := Fetch(replies, at);
            && fetch.requests > 0
            && (forall i :: at <= i < at + fetch.requests - 1 ==> ReplyDecides(replies(i)).None?)
            && ReplyDecides(replies(at + fetch.requests - 1)) ==
               match fetch.result
               case Ok(data) => Some(Ok(data))
               case Err(e) => if ClassifyPoll(e).Abort? then Some(Err(BootstrapAborted(e))) else None
  {
    RetryShape(GetBootstrap, replies, at, 0, MAX_ATTEMPTS, None);
    hide RetryFrom, Backoffs;
    var fetch := Fetch(replies, at);
    forall i | at <= i < at + fetch.requests
      ensures AttemptOf(GetBootstrap, replies(i)).Retry? ==> ReplyDecides(replies(i)).None?
    {
      RetryIsUndecided(replies(i));
    }
    LastDecides(replies(at + fetch.requests - 1), fetch.result);
  }

  lemma RetryIsUndecided(reply: Reply)
    ensures AttemptOf(GetBootstrap, reply).Retry? ==> ReplyDecides(reply).None?
  {
  }

  lemma LastDecides(reply: Reply, result: Result<seq<byte>, ClientError>)
    requires Decided(AttemptOf(GetBootstrap, reply), result)
    ensures ReplyDecides(reply) ==
            match result
            case Ok(data) => Some(Ok(data))
            case Err(e) => if ClassifyPoll(e).Abort? then Some(Err(BootstrapAborted(e))) else None
  {
  }
}
