/**
 * The reconnect back-off state machine of the station link.
 *
 * The firmware keeps one global context (state, retry count, interval,
 * factor, maximum retry count and a one-shot timer handle).  `Init`, `Start`
 * and `Stop` are called by the application; the timer service calls the
 * timer callback, which re-enters the transition function `HandleState`.
 *
 * Every operation is specified by a pure step function on a snapshot of the
 * context (`Ctx`); the class `Connection` holds the context as mutable fields
 * and each of its methods is proved to perform exactly that step.  The timer
 * and the connect calls are ghost effects: whether the timer exists, whether it
 * is armed, its period in milliseconds, and how many connects were issued.
 */
module AppConnection {
  import opened Wrappers

  /** Compile-time policy constants of the firmware. */
  const DEFAULT_INTERVAL: nat := 10
  const DEFAULT_FACTOR: nat := 2
  const DEFAULT_RETRY: nat := 4

  /** The cap is a product, not a power of the factor: 10 * 4 = 40 seconds. */
  const MAX_INTERVAL: nat := DEFAULT_INTERVAL * DEFAULT_RETRY

  /** The interval `Stop` leaves behind (not the default). */
  const STOP_INTERVAL: nat := 1000

  /** Range of the `uint8_t` retry counter (the `uint16_t` interval uses U16_RANGE). */
  const U8_RANGE: nat := 0x100

  datatype State =
    | Null                  // the zero-initialised context, before Init
    | Idle
    | StartRetry
    | IncrementInterval
    | RetryWithMaxInterval
    | Stopping              // set by Stop and left again in the same call

  /** A snapshot of the context together with the ghost effects. */
  datatype Ctx = Ctx(
    state: State,
    retryCount: nat,
    interval: nat,
    factor: nat,
    maxRetryCount: nat,
    timerCreated: bool,
    timerArmed: bool,
    timerPeriodMs: nat,
    connects: nat)

  /** The statically zeroed context. */
  const ZERO_CTX: Ctx := Ctx(Null, 0, 0, 0, 0, false, false, 0, 0)


  function Pow2(k: nat): nat { if k == 0 then 1 else 2 * Pow2(k - 1) }

  /** States of a retry episode (between Start and Stop). */
  predicate InEpisode(s: State) {
    s == StartRetry || s == IncrementInterval || s == RetryWithMaxInterval
  }

  // ---------------------------------------------------------------------
  // Step functions: what each operation does to the context
  // ---------------------------------------------------------------------

  /** app_connection_Init: acts only while no timer exists. */
  function InitStep(c: Ctx): Ctx {
    if c.timerCreated then c
    else c.(state := Idle, retryCount := 0, interval := DEFAULT_INTERVAL,
            factor := DEFAULT_FACTOR, maxRetryCount := DEFAULT_RETRY,
            timerCreated := true, timerArmed := false,
            timerPeriodMs := DEFAULT_INTERVAL * 1000)
  }

  /** app_connection_Start: acts only in Idle with a timer; arms the timer
      with whatever period it has, and does not connect. */
  function StartStep(c: Ctx): Ctx {
    if c.state == Idle && c.timerCreated then
      c.(state := StartRetry, interval := DEFAULT_INTERVAL, retryCount := 0, timerArmed := true)
    else c
  }

  /** HandleState, the transition function. */
  function HandleStep(c: Ctx): Ctx {
    match c.state
    case StartRetry =>
      c.(connects := c.connects + 1, retryCount := 1, state := IncrementInterval)
    case IncrementInterval =>
      if c.retryCount < c.maxRetryCount then
        var grown := (c.interval * c.factor) % U16_RANGE;
        var capped := if grown > MAX_INTERVAL then MAX_INTERVAL else grown;
        c.(interval := capped, connects := c.connects + 1,
           retryCount := (c.retryCount + 1) % U8_RANGE,
           timerArmed := true, timerPeriodMs := capped * 1000)
      else
        c.(state := RetryWithMaxInterval)
    case RetryWithMaxInterval =>
      c.(connects := c.connects + 1, timerArmed := true, timerPeriodMs := c.interval * 1000)
    case Stopping =>
      c.(timerArmed := false, state := Idle, retryCount := 0, interval := STOP_INTERVAL)
    case Null => c
    case Idle => c
  }

  /** app_connection_Stop: acts only outside Idle with a timer. */
  function StopStep(c: Ctx): Ctx {
    if c.state != Idle && c.timerCreated then HandleStep(c.(state := Stopping)) else c
  }

  /** An expiry of the one-shot timer: it disarms, then the callback runs. */
  function Expire(c: Ctx): Ctx {
    HandleStep(c.(timerArmed := false))
  }

  // ---------------------------------------------------------------------
  // The back-off schedule and the context invariant
  // ---------------------------------------------------------------------

  /** The interval HandleState has reached after `retries` attempts. */
  function Backoff(retries: nat): (r: nat)
    ensures DEFAULT_INTERVAL <= r <= MAX_INTERVAL
    ensures r % DEFAULT_INTERVAL == 0
  {
    if retries <= 1 then DEFAULT_INTERVAL
    else Min(Backoff(retries - 1) * DEFAULT_FACTOR, MAX_INTERVAL)
  }

  /** Closed form of the schedule: the default doubled per retry, capped. */
  lemma {:induction false} BackoffClosedForm(retries: nat)
    requires retries >= 1
    ensures Backoff(retries) == Min(DEFAULT_INTERVAL * Pow2(retries - 1), MAX_INTERVAL)
  {
    if retries > 1 {
      BackoffClosedForm(retries - 1);
      if DEFAULT_INTERVAL * Pow2(retries - 2) >= MAX_INTERVAL {
        assert DEFAULT_INTERVAL * Pow2(retries - 1) == 2 * (DEFAULT_INTERVAL * Pow2(retries - 2));
      }
    }
  }

  /** The schedule never shrinks. */
  lemma BackoffMonotone(retries: nat)
    ensures Backoff(retries) <= Backoff(retries + 1)
  {
  }

  /** What holds between the operations of the state machine. */
  predicate Inv(c: Ctx) {
    && c.state != Stopping
    && (c.state == Null <==> !c.timerCreated)
    && (c.state == Null ==>
          c.retryCount == 0 && c.interval == 0 && c.factor == 0 && c.maxRetryCount == 0
          && !c.timerArmed && c.timerPeriodMs == 0)
    && (c.state != Null ==>
          c.factor == DEFAULT_FACTOR && c.maxRetryCount == DEFAULT_RETRY
          && DEFAULT_INTERVAL * 1000 <= c.timerPeriodMs <= MAX_INTERVAL * 1000)
    && (c.state == Idle ==>
          c.retryCount == 0 && !c.timerArmed
          && (c.interval == DEFAULT_INTERVAL || c.interval == STOP_INTERVAL))
    && (c.state == StartRetry ==> c.retryCount == 0 && c.interval == DEFAULT_INTERVAL)
    && (c.state == IncrementInterval ==>
          1 <= c.retryCount <= c.maxRetryCount && c.interval == Backoff(c.retryCount))
    && (c.state == RetryWithMaxInterval ==>
          c.retryCount == c.maxRetryCount && c.interval == MAX_INTERVAL)
  }

  // ---------------------------------------------------------------------
  // Properties of each operation
  // ---------------------------------------------------------------------

  /** Init sets up the defaults and a dormant 10 s timer once; later calls change nothing. */
  lemma InitOnce(c: Ctx)
    requires Inv(c)
    ensures Inv(InitStep(c))
    ensures c.state == Null ==>
      InitStep(c) == Ctx(Idle, 0, DEFAULT_INTERVAL, DEFAULT_FACTOR, DEFAULT_RETRY,
                         true, false, DEFAULT_INTERVAL * 1000, c.connects)
    ensures c.state != Null ==> InitStep(c) == c
    ensures InitStep(InitStep(c)) == InitStep(c)
  {
  }

  /** Start opens an episode only from Idle: state StartRetry, interval 10,
      no retries, the timer armed with its existing period, and no connect. */
  lemma StartOpensEpisode(c: Ctx)
    requires Inv(c)
    ensures Inv(StartStep(c))
    ensures c.state == Idle ==>
      StartStep(c) == c.(state := StartRetry, interval := DEFAULT_INTERVAL,
                         retryCount := 0, timerArmed := true)
    ensures c.state != Idle ==> StartStep(c) == c
    ensures StartStep(c).connects == c.connects
    ensures StartStep(c).timerPeriodMs == c.timerPeriodMs
    ensures StartStep(StartStep(c)) == StartStep(c)
  {
  }

  /** Before Init the context is zero, so Start and Stop do nothing. */
  lemma NothingBeforeInit()
    ensures StartStep(ZERO_CTX) == ZERO_CTX
    ensures StopStep(ZERO_CTX) == ZERO_CTX
    ensures HandleStep(ZERO_CTX) == ZERO_CTX
  {
  }

  /** The first expiry of an episode: one connect, one retry, no re-arm. */
  lemma FirstExpiry(c: Ctx)
    requires Inv(c) && c.state == StartRetry
    ensures Expire(c).connects == c.connects + 1
    ensures Expire(c).retryCount == 1
    ensures Expire(c).state == IncrementInterval
    ensures Expire(c).interval == c.interval
    ensures !Expire(c).timerArmed && Expire(c).timerPeriodMs == c.timerPeriodMs
  {
  }

  /** Below the retry limit the interval grows by the factor up to the cap,
      one connect is issued and the timer is re-armed for the new interval;
      the 16-bit multiplication never wraps. */
  lemma IncrementBelowLimit(c: Ctx)
    requires Inv(c) && c.state == IncrementInterval && c.retryCount < c.maxRetryCount
    ensures var d := HandleStep(c);
      && d.state == IncrementInterval
      && d.interval == Min(c.interval * c.factor, MAX_INTERVAL)
      && d.interval == Backoff(c.retryCount + 1)
      && d.retryCount == c.retryCount + 1
      && d.connects == c.connects + 1
      && d.timerArmed && d.timerPeriodMs == d.interval * 1000
  {
    assert c.interval * c.factor <= 2 * MAX_INTERVAL;
  }

  /** At the retry limit the machine switches to max-interval retries without
      connecting and without re-arming the timer. */
  lemma IncrementAtLimit(c: Ctx)
    requires Inv(c) && c.state == IncrementInterval && c.retryCount >= c.maxRetryCount
    ensures HandleStep(c) == c.(state := RetryWithMaxInterval)
    ensures HandleStep(c).interval == MAX_INTERVAL
  {
    assert c.retryCount == DEFAULT_RETRY;
    assert Backoff(3) == MAX_INTERVAL;
  }

  /** In max-interval mode each step connects once and re-arms at the same
      interval; nothing else changes. */
  lemma RetryAtMaxInterval(c: Ctx)
    requires Inv(c) && c.state == RetryWithMaxInterval
    ensures HandleStep(c) == c.(connects := c.connects + 1, timerArmed := true,
                                timerPeriodMs := MAX_INTERVAL * 1000)
  {
  }

  /** Stop ends any episode: timer disarmed, Idle, no retries, interval 1000.
      In Idle (or before Init) it does nothing. */
  lemma StopEndsEpisode(c: Ctx)
    requires Inv(c)
    ensures Inv(StopStep(c))
    ensures c.state != Idle && c.state != Null ==>
      StopStep(c) == c.(state := Idle, retryCount := 0, interval := STOP_INTERVAL, timerArmed := false)
    ensures c.state == Idle || c.state == Null ==> StopStep(c) == c
    ensures StopStep(c).connects == c.connects
  {
  }

  /** Expiry in Idle or Null does nothing beyond the timer's own disarm. */
  lemma ExpiryOutsideEpisode(c: Ctx)
    requires Inv(c) && !InEpisode(c.state)
    ensures Expire(c) == c.(timerArmed := false)
    ensures HandleStep(c) == c
  {
  }

  /** HandleState keeps the invariant; within an episode it keeps the retry
      count at most the limit and the interval non-decreasing, between 10 and 40. */
  lemma HandleStepInEpisode(c: Ctx)
    requires Inv(c)
    ensures Inv(HandleStep(c))
    ensures InEpisode(c.state) ==>
      && InEpisode(HandleStep(c).state)
      && c.interval <= HandleStep(c).interval
      && DEFAULT_INTERVAL <= HandleStep(c).interval <= MAX_INTERVAL
      && HandleStep(c).retryCount <= HandleStep(c).maxRetryCount
  {
    if c.state == IncrementInterval {
      if c.retryCount < c.maxRetryCount {
        IncrementBelowLimit(c);
        BackoffMonotone(c.retryCount);
      } else {
        IncrementAtLimit(c);
      }
    }
  }

  /** The same holds for a timer expiry. */
  lemma ExpireInEpisode(c: Ctx)
    requires Inv(c)
    ensures Inv(Expire(c))
    ensures InEpisode(c.state) ==>
      && InEpisode(Expire(c).state)
      && c.interval <= Expire(c).interval <= MAX_INTERVAL
      && Expire(c).retryCount <= Expire(c).maxRetryCount
  {
    HandleStepInEpisode(c.(timerArmed := false));
  }

  /** With the default constants, repeated transitions from the start of an
      episode re-arm the timer for 20 s, 40 s and 40 s, then switch to
      max-interval retries at 40 s. */
  lemma DefaultSchedule(c: Ctx)
    requires Inv(c) && c.state == StartRetry
    ensures var c1 := HandleStep(c);
            var c2 := HandleStep(c1);
            var c3 := HandleStep(c2);
            var c4 := HandleStep(c3);
            var c5 := HandleStep(c4);
            var c6 := HandleStep(c5);
      && c1.retryCount == 1 && c1.interval == 10
      && c2.timerPeriodMs == 20000 && c2.retryCount == 2
      && c3.timerPeriodMs == 40000 && c3.retryCount == 3
      && c4.timerPeriodMs == 40000 && c4.retryCount == 4
      && c5.state == RetryWithMaxInterval && c5.connects == c.connects + 4
      && c6.timerPeriodMs == 40000 && c6.connects == c.connects + 5
  {
    assert Backoff(2) == 20;
    assert Backoff(3) == 40;
  }

  // ---------------------------------------------------------------------
  // Runs driven by the public entry points and the timer
  // ---------------------------------------------------------------------

  /** What can happen to the context from outside: the three API calls and
      an expiry of the timer, which can only fire while it is armed. */
  datatype Event = InitCall | StartCall | StopCall | TimerFires

  function Apply(c: Ctx, e: Event): Ctx {
    match e
    case InitCall => InitStep(c)
    case StartCall => StartStep(c)
    case StopCall => StopStep(c)
    case TimerFires => if c.timerArmed then Expire(c) else c
  }

  function Run(c: Ctx, events: seq<Event>): Ctx
    decreases |events|
  {
    if events == [] then c else Run(Apply(c, events[0]), events[1..])
  }

  /** The contexts a timer-driven run can reach: the StartRetry branch does
      not re-arm the one-shot timer, so no run goes beyond the first retry. */
  predicate Reachable(c: Ctx) {
    && Inv(c)
    && c.retryCount <= 1
    && c.state != RetryWithMaxInterval
    && (c.state == IncrementInterval ==> !c.timerArmed)
    && (c.timerCreated ==> c.timerPeriodMs == DEFAULT_INTERVAL * 1000)
  }

  lemma ApplyKeepsReachable(c: Ctx, e: Event)
    requires Reachable(c)
    ensures Reachable(Apply(c, e))
  {
  }

  lemma {:induction false} RunKeepsReachable(c: Ctx, events: seq<Event>)
    requires Reachable(c)
    ensures Reachable(Run(c, events))
    decreases |events|
  {
    if events != [] {
      ApplyKeepsReachable(c, events[0]);
      RunKeepsReachable(Apply(c, events[0]), events[1..]);
    }
  }

  /** From power-up, whatever the calls and expiries, the retry count never
      exceeds 1, the timer keeps its initial 10 s period and max-interval
      mode is never entered: the back-off never grows. */
  lemma BackoffNeverGrows(events: seq<Event>)
    ensures var d := Run(ZERO_CTX, events);
      && Inv(d)
      && d.retryCount <= 1
      && d.state != RetryWithMaxInterval
      && (d.timerCreated ==> d.timerPeriodMs == DEFAULT_INTERVAL * 1000)
  {
    RunKeepsReachable(ZERO_CTX, events);
  }

  /** After the first expiry the episode is stalled: nothing but Stop changes
      the context, however many calls and (impossible) expiries follow. */
  lemma {:induction false} StalledUntilStop(c: Ctx, events: seq<Event>)
    requires Inv(c) && c.state == IncrementInterval && !c.timerArmed
    requires forall i :: 0 <= i < |events| ==> events[i] != StopCall
    ensures Run(c, events) == c
    decreases |events|
  {
    if events != [] {
      assert Apply(c, events[0]) == c;
      StalledUntilStop(c, events[1..]);
    }
  }

  // ---------------------------------------------------------------------
  // The global context as a mutable object
  // ---------------------------------------------------------------------

  class Connection {
    var state: State
    var retryCount: nat
    var interval: nat
    var factor: nat
    var maxRetryCount: nat
    var timerCreated: bool
    ghost var timerArmed: bool
    ghost var timerPeriodMs: nat
    ghost var connects: nat

    ghost function Snapshot(): Ctx
      reads this
    {
      Ctx(state, retryCount, interval, factor, maxRetryCount,
          timerCreated, timerArmed, timerPeriodMs, connects)
    }

    ghost predicate Valid()
      reads this
    {
      Inv(Snapshot())
    }

    /** The zero-initialised static context. */
    constructor ()
      ensures Valid() && Snapshot() == ZERO_CTX
    {
      state, retryCount, interval, factor, maxRetryCount := Null, 0, 0, 0, 0;
      timerCreated := false;
      timerArmed, timerPeriodMs, connects := false, 0, 0;
    }

    method Init()
      requires Valid()
      modifies this
      ensures Valid() && Snapshot() == InitStep(old(Snapshot()))
    {
      if !timerCreated {
        state := Idle;
        retryCount := 0;
        interval := DEFAULT_INTERVAL;
        factor := DEFAULT_FACTOR;
        maxRetryCount := DEFAULT_RETRY;
        timerCreated := true;
        timerArmed := false;
        timerPeriodMs := interval * 1000;
      }
      InitOnce(old(Snapshot()));
    }

    method Start()
      requires Valid()
      modifies this
      ensures Valid() && Snapshot() == StartStep(old(Snapshot()))
    {
      if state == Idle && timerCreated {
        state := StartRetry;
        interval := DEFAULT_INTERVAL;
        retryCount := 0;
        timerArmed := true;
      }
      StartOpensEpisode(old(Snapshot()));
    }

    method Stop()
      requires Valid()
      modifies this
      ensures Valid() && Snapshot() == StopStep(old(Snapshot()))
    {
      if state != Idle && timerCreated {
        state := Stopping;
        HandleState();
      }
      StopEndsEpisode(old(Snapshot()));
    }

    /** The transition function; the timer callback and Stop both enter it. */
    method HandleState()
      modifies this
      ensures Snapshot() == HandleStep(old(Snapshot()))
    {
      match state {
        case StartRetry =>
          connects := connects + 1;
          retryCount := 1;
          state := IncrementInterval;
        case IncrementInterval =>
          if retryCount < maxRetryCount {
            interval := (interval * factor) % U16_RANGE;
            if interval > MAX_INTERVAL {
              interval := MAX_INTERVAL;
            }
            connects := connects + 1;
            retryCount := (retryCount + 1) % U8_RANGE;
            timerArmed, timerPeriodMs := true, interval * 1000;
          } else {
            state := RetryWithMaxInterval;
          }
        case RetryWithMaxInterval =>
          connects := connects + 1;
          timerArmed, timerPeriodMs := true, interval * 1000;
        case Stopping =>
          timerArmed := false;
          state := Idle;
          retryCount := 0;
          interval := STOP_INTERVAL;
        case Null =>
        case Idle =>
      }
    }

    /** The timer service runs the callback when the armed one-shot timer expires. */
    method TimerCallback()
      requires Valid() && timerArmed
      modifies this
      ensures Valid() && Snapshot() == Expire(old(Snapshot()))
    {
      timerArmed := false;
      HandleState();
      ExpireInEpisode(old(Snapshot()));
    }
  }
}
