/** The callback client: which answers are worth retrying, how often, and how long it sleeps in between. */
module CallbackClient {
  import opened Bytes
  import opened Powers
  import opened Wrappers

  const MAX_ATTEMPTS: nat := 5
  const BACKOFF_BASE: nat := 500
  const BACKOFF_CAP: nat := 8000
  const MAX_BOOTSTRAP_BYTES: nat := 4 * 1024 * 1024
  const U32_MAX: u32 := 0xFFFF_FFFF

  datatype ClientError =
    | CaDecode
    | CaEmpty
    | CaInvalid
    | Http(code: u16)
    | Transport
    | BodyBroken
    | BootstrapTooLarge
    | Serialize
    | RetriesExhausted(last: ClientError)

  /** What comes back for one request; a broken body fails behind its bytes. */
  datatype Reply = NoAnswer | Answer(code: u16, body: seq<byte>, broken: bool)

  datatype Attempt = Done(value: seq<byte>) | Retry(error: ClientError) | Fatal(error: ClientError)

  /** A POST wants a status only, the bootstrap GET its body. */
  datatype Request = Post | GetBootstrap

  // ---------------------------------------------------------------- one attempt

  predicate IsTransient(status: u16) {
    status == 408 || status == 429 || 500 <= status <= 599
  }

  predicate IsSuccess(status: u16) {
    200 <= status < 300
  }

  /** Reads one byte past the limit and no further, so an over-long body never shows where it breaks. */
  function ReadCapped(body: seq<byte>, broken: bool, limit: nat): Result<seq<byte>, ClientError> {
    if |body| > limit then Err(BootstrapTooLarge)
    else if broken then Err(BodyBroken)
    else Ok(body)
  }

  function AttemptOf(request: Request, reply: Reply): Attempt {
    match reply
    case NoAnswer => Retry(Transport)
    case Answer(code, body, broken) =>
      if IsSuccess(code) then
        if request.Post? then Done([])
        else
          var read := ReadCapped(body, broken, MAX_BOOTSTRAP_BYTES);
          if read.Ok? then Done(read.value)
          else if read.error == BootstrapTooLarge then Fatal(BootstrapTooLarge)
          else Retry(read.error)
      else if IsTransient(code) then Retry(Http(code))
      else Fatal(Http(code))
  }

  /** The statuses that are worth another attempt: timeout, too many requests, and what the server has to answer for. */
  predicate MayPass(code: u16) {
    code == 408 || code == 429 || code / 100 == 5
  }

  /** What every answer to every request comes to, by its number and its length in bytes. */
  lemma AttemptTable(request: Request, code: u16, body: seq<byte>, broken: bool)
    ensures var a := AttemptOf(request, Answer(code, body, broken));
            if code / 100 == 2 then
              if request == Post then a == Done([])
              else if |body| > 4194304 then a == Fatal(BootstrapTooLarge)
              else a == if broken then Retry(BodyBroken) else Done(body)
            else a == if MayPass(code) then Retry(Http(code)) else Fatal(Http(code))
    ensures AttemptOf(request, NoAnswer) == Retry(Transport)
  {
  }

  // ---------------------------------------------------------------- backoff

  /** `1u64.checked_shl(attempt).unwrap_or(u64::MAX)` */
  function Factor(attempt: u32): u64 {
    if attempt < 64 then
      Pow2Grows(attempt, 63);
      Pow2Values();
      Pow2(attempt)
    else U64_MAX
  }

  function Min(a: nat, b: nat): nat {
    if a <= b then a else b
  }

  /** Milliseconds to sleep after the attempt numbered `attempt`. */
  function Backoff(attempt: u32): nat {
    Min(BACKOFF_BASE * Min(Factor(attempt), U32_MAX), BACKOFF_CAP)
  }

  /** No shift, cast or clamp on the way shows: the backoff doubles from 500 ms and stops at 8 s. */
  lemma BackoffDoubles(attempt: u32)
    ensures Backoff(attempt) == Min(500 * Pow2(attempt), 8000)
  {
    Pow2Values();
    hide Pow2;
    if attempt >= 4 {
      Pow2Grows(4, attempt);
    } else {
      Pow2Grows(attempt, 4);
    }
  }

  // ---------------------------------------------------------------- retries

  /** What a call comes to: its result, the requests it made and the milliseconds it slept. */
  datatype Run<T> = Run(result: T, requests: nat, slept: nat)

  type Replies = nat -> Reply

  /** The attempts from number `n` on, the next request being number `at`. */
  function RetryFrom(request: Request, replies: Replies, at: nat, n: nat, max: nat,
                     last: Option<ClientError>): Run<Result<seq<byte>, ClientError>>
    requires n <= max <= U32_MAX
    decreases max - n
  {
    if n == max then
      Run(Err(RetriesExhausted(if last.Some? then last.value else BodyBroken)), 0, 0)
    else
      match AttemptOf(request, replies(at))
      case Done(value) => Run(Ok(value), 1, 0)
      case Fatal(e) => Run(Err(e), 1, 0)
      case Retry(e) =>
        var rest := RetryFrom(request, replies, at + 1, n + 1, max, Some(e));
        Run(rest.result, 1 + rest.requests, rest.slept + if n + 1 < max then Backoff(n) else 0)
  }

  function Call(request: Request, replies: Replies, at: nat): Run<Result<seq<byte>, ClientError>> {
    RetryFrom(request, replies, at, 0, MAX_ATTEMPTS, None)
  }

  /** The network as the client sees it: replies in the order of requests, and a clock. */
  class Wire {
    const replies: Replies
    var requests: nat
    var slept: nat

    constructor (replies: Replies)
      ensures this.replies == replies && requests == 0 && slept == 0
    {
      this.replies := replies;
      requests, slept := 0, 0;
    }

    method Send(request: Request) returns (a: Attempt)
      modifies this`requests
      ensures a == AttemptOf(request, replies(old(requests))) && requests == old(requests) + 1
    {
      a := AttemptOf(request, replies(requests));
      requests := requests + 1;
    }

    method Sleep(ms: nat)
      modifies this`slept
      ensures slept == old(slept) + ms
    {
      slept := slept + ms;
    }

    method RunWithRetries(request: Request, max: u32) returns (r: Result<seq<byte>, ClientError>)
      modifies this
      ensures var run := RetryFrom(request, replies, old(requests), 0, max, None);
              r == run.result && requests == old(requests) + run.requests && slept == old(slept) + run.slept
    {
      var last: Option<ClientError> := None;
      ghost var whole := RetryFrom(request, replies, requests, 0, max, None);
      for n := 0 to max
        invariant var rest := RetryFrom(request, replies, requests, n, max, last);
                  && whole.result == rest.result
                  && old(requests) + whole.requests == requests + rest.requests
                  && old(slept) + whole.slept == slept + rest.slept
      {
        var attempt := Send(request);
        match attempt
        case Done(value) => return Ok(value);
        case Fatal(e) => return Err(e);
        case Retry(e) =>
          last := Some(e);
          if n + 1 < max {
            Sleep(Backoff(n));
          }
      }
      return Err(RetriesExhausted(if last.Some? then last.value else BodyBroken));
    }

    method Perform(request: Request) returns (r: Result<seq<byte>, ClientError>)
      modifies this
      ensures var run := Call(request, replies, old(requests));
              r == run.result && requests == old(requests) + run.requests && slept == old(slept) + run.slept
    {
      r := RunWithRetries(request, MAX_ATTEMPTS);
    }
  }

  /** The `count` backoffs from the one after attempt `from` on. */
  function Backoffs(from: nat, count: nat): nat
    requires from + count <= U32_MAX
    decreases count
  {
    if count == 0 then 0 else Backoff(from) + Backoffs(from + 1, count - 1)
  }

  /** Attempts are made until one is decisive; between two of them, and nowhere else, the backoff is slept. */
  lemma {:induction false} RetryShape(request: Request, replies: Replies, at: nat, n: nat, max: nat,
                                      last: Option<ClientError>)
    requires n < max <= U32_MAX
    ensures var run := RetryFrom(request, replies, at, n, max, last);
            && 1 <= run.requests <= max - n
            && run.slept == Backoffs(n, run.requests - 1)
            && (forall i :: at <= i < at + run.requests - 1 ==> AttemptOf(request, replies(i)).Retry?)
            && Decided(AttemptOf(request, replies(at + run.requests - 1)), run.result)
            && (run.result.Err? && run.result.error.RetriesExhausted? ==> run.requests == max - n)
    decreases max - n
  {
    hide AttemptOf, Backoff;
    if AttemptOf(request, replies(at)).Retry? {
      if n + 1 < max {
        RetryShape(request, replies, at + 1, n + 1, max, Some(AttemptOf(request, replies(at)).error));
      }
    }
    NeverExhausted(request, replies(at));
  }

  lemma NeverExhausted(request: Request, reply: Reply)
    ensures var a := AttemptOf(request, reply); !(a.Fatal? && a.error.RetriesExhausted?)
  {
  }

  /** How the last attempt made decides the call. */
  predicate Decided(attempt: Attempt, result: Result<seq<byte>, ClientError>) {
    match attempt
    case Done(value) => result == Ok(value)
    case Fatal(e) => result == Err(e)
    case Retry(e) => result == Err(RetriesExhausted(e))
  }

  /** An error a retry may cure. */
  predicate Transient(e: ClientError) {
    e == Transport || e == BodyBroken || (e.Http? && MayPass(e.code))
  }

  /** An attempt retries exactly the transient errors. */
  lemma RetriesTransient(request: Request, reply: Reply)
    ensures var a := AttemptOf(request, reply);
            && (a.Retry? ==> Transient(a.error))
            && (a.Fatal? ==> !Transient(a.error) && (a.error == BootstrapTooLarge || a.error.Http?))
  {
  }

  /** An error no retry would cure: an over-long body, or a status that is neither a success nor transient. */
  predicate Definite(e: ClientError) {
    !Transient(e) && (e == BootstrapTooLarge || e.Http?)
  }

  /**
   A call makes one to five requests; exhaustion wraps a transient error, and no bare error is transient:
   no 408, no 429 and no 5xx comes out as it is.
   */
  lemma CallErrors(request: Request, replies: Replies, at: nat)
    ensures var run := Call(request, replies, at);
            && 1 <= run.requests <= 5 && run.slept <= 7500
            && (run.result.Err? ==>
                  if run.result.error.RetriesExhausted? then run.requests == 5 && Transient(run.result.error.last)
                  else
                    && Definite(run.result.error)
                    && (run.result.error.Http? ==>
                          var code := run.result.error.code; code != 408 && code != 429 && !(500 <= code <= 599)))
  {
    hide RetryFrom, AttemptOf, Backoffs, IsSuccess;
    RetryShape(request, replies, at, 0, MAX_ATTEMPTS, None);
    var run := Call(request, replies, at);
    RetriesTransient(request, replies(at + run.requests - 1));
    BackoffsUpToFour(run.requests - 1);
  }

  lemma BackoffsUpToFour(k: nat)
    requires k <= 4
    ensures Backoffs(0, k) <= 7500 && Backoffs(0, 4) == 7500
  {
    BackoffDoubles(0);
    BackoffDoubles(1);
    BackoffDoubles(2);
    BackoffDoubles(3);
    assert Pow2(1) == 2 && Pow2(2) == 4 && Pow2(3) == 8;
    hide Backoff, Pow2;
    assert Backoffs(0, 4) == Backoff(0) + (Backoff(1) + (Backoff(2) + (Backoff(3) + Backoffs(4, 0))));
  }
}
