/** Throttling of device polls (section 3.5 of RFC 8628) when the polls of one record are not interleaved. */
module PollArithmetic {
  import opened Wrappers
  import opened DeviceTable
  import opened DeviceGrant

  // Between polls the record may be approved, denied or consumed by anybody.
  datatype Event = PollAt(now: Time) | Become(status: Status, subjectSub: Option<string>)

  predicate Slowed(r: Row, e: Event) {
    e.PollAt? && Decide(r, e.now).TooFast?
  }

  /** A poll that is answered from the record: neither throttled nor expired. */
  predicate Answered(r: Row, e: Event) {
    e.PollAt? && !Decide(r, e.now).TooFast? && !Decide(r, e.now).ExpiredToken?
  }

  function Step(r: Row, e: Event): Row {
    match e
    case PollAt(now) => RecordPoll(map[r.request.id := r], r, now)[r.request.id]
    case Become(status, subjectSub) => r.(status := status, subjectSub := subjectSub)
  }

  function Steps(r: Row, events: seq<Event>): Row
    decreases |events|
  {
    if events == [] then r else Steps(Step(r, events[0]), events[1..])
  }

  function CountSlowed(r: Row, events: seq<Event>): nat
    decreases |events|
  {
    if events == [] then 0
    else (if Slowed(r, events[0]) then 1 else 0) + CountSlowed(Step(r, events[0]), events[1..])
  }

  function CountAnswered(r: Row, events: seq<Event>): nat
    decreases |events|
  {
    if events == [] then 0
    else (if Answered(r, events[0]) then 1 else 0) + CountAnswered(Step(r, events[0]), events[1..])
  }

  /** The clock of the polls never runs backwards, starting from t. */
  predicate ClockFrom(t: Time, events: seq<Event>)
    decreases |events|
  {
    events == [] ||
    (if events[0].PollAt? then t <= events[0].now && ClockFrom(events[0].now, events[1..])
      else ClockFrom(t, events[1..]))
  }

  /** Every slow_down costs the client five more seconds, and nothing else changes the interval. */
  lemma {:induction false} IntervalGrowsPerSlowDown(r: Row, events: seq<Event>)
    ensures Steps(r, events).interval == r.interval + SLOW_DOWN_INCREMENT * CountSlowed(r, events)
    decreases |events|
  {
    if events != [] { IntervalGrowsPerSlowDown(Step(r, events[0]), events[1..]); }
  }

  lemma {:induction false} LastPollAdvances(r: Row, events: seq<Event>, t: Time)
    requires r.lastPollAt.Some? && r.lastPollAt.value <= t
    requires ClockFrom(t, events)
    ensures Steps(r, events).lastPollAt.Some? && r.lastPollAt.value <= Steps(r, events).lastPollAt.value
    decreases |events|
  {
    if events != [] {
      var next := Step(r, events[0]);
      LastPollAdvances(next, events[1..], if events[0].PollAt? then events[0].now else t);
    }
  }

  /** Two answered polls are at least the interval in force apart: five seconds, and five more for every
      slow_down answered so far. */
  lemma AnsweredPollsAreSpaced(r: Row, a: Time, between: seq<Event>, b: Time)
    requires r.interval >= DEFAULT_INTERVAL
    requires Answered(r, PollAt(a)) && ClockFrom(a, between)
    requires Answered(Steps(Step(r, PollAt(a)), between), PollAt(b))
    ensures b - a >= r.interval + SLOW_DOWN_INCREMENT * CountSlowed(Step(r, PollAt(a)), between)
  {
    var after := Step(r, PollAt(a));
    LastPollAdvances(after, between, a);
    IntervalGrowsPerSlowDown(after, between);
  }

  lemma {:induction false} AnsweredFitBeforeExpiry(r: Row, events: seq<Event>, t: Time)
    requires r.interval >= DEFAULT_INTERVAL && ClockFrom(t, events)
    requires r.lastPollAt.Some? ==> r.lastPollAt.value <= t
    ensures CountAnswered(r, events) > 0 ==>
      DEFAULT_INTERVAL * CountAnswered(r, events)
        < r.request.expiresAt - if r.lastPollAt.Some? then r.lastPollAt.value else t - DEFAULT_INTERVAL
    decreases |events|
  {
    if events != [] {
      AnsweredFitBeforeExpiry(Step(r, events[0]), events[1..], if events[0].PollAt? then events[0].now else t);
    }
  }

  /** At most the ceiling of TTL / 5 s polls of a new authorization are answered before it expires. */
  lemma AnsweredPollsAreBounded(r: Row, events: seq<Event>)
    requires r.request.expiresAt > r.request.createdAt && ClockFrom(r.request.createdAt, events)
    requires r.interval <= 0 || r.interval >= DEFAULT_INTERVAL
    ensures
      var ttl := r.request.expiresAt - r.request.createdAt;
      CountAnswered(Inserted(r), events) <= (ttl + DEFAULT_INTERVAL - 1) / DEFAULT_INTERVAL
  {
    AnsweredFitBeforeExpiry(Inserted(r), events, r.request.createdAt);
  }

  /** The bound is reached: a client that polls exactly every five seconds is answered every time. */
  lemma {:induction false} SteadyClientIsAlwaysAnswered(r: Row, n: nat, t: Time)
    requires r.status.Pending? && r.interval == DEFAULT_INTERVAL
    requires r.lastPollAt == None || r.lastPollAt == Some(t - DEFAULT_INTERVAL)
    requires n == 0 || t + (n - 1) * DEFAULT_INTERVAL < r.request.expiresAt
    ensures CountAnswered(r, Steady(n, t)) == n
    decreases n
  {
    if n != 0 {
      assert t <= t + (n - 1) * DEFAULT_INTERVAL;
      SteadyClientIsAlwaysAnswered(Step(r, PollAt(t)), n - 1, t + DEFAULT_INTERVAL);
    }
  }

  function Steady(n: nat, t: Time): seq<Event>
    decreases n
  {
    if n == 0 then [] else [PollAt(t)] + Steady(n - 1, t + DEFAULT_INTERVAL)
  }
}
