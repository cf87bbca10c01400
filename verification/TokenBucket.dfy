/**
 The token bucket, in exact real arithmetic; clock readings are arguments.
 */
module TokenBucket {
  import opened Options

  datatype Level = Level(tokens: real, last: real)

  function Max(a: real, b: real): real {
    if a < b then b else a
  }

  function Min(a: real, b: real): real {
    if b < a then b else a
  }

  /** What flows in while the clock advances by `elapsed`. */
  function Flow(elapsed: real, rate: real): real {
    elapsed * rate
  }

  /** The bucket after time has passed; a clock that went back is not made up for. */
  function Refilled(rate: real, capacity: real, l: Level, now: real): Level {
    Level(Min(capacity, l.tokens + Flow(Max(0.0, now - l.last), rate)), now)
  }

  /** What can be asked for at all; anything else is refused before the bucket is refilled. */
  predicate Fits(n: real, capacity: real) {
    0.0 < n <= capacity
  }

  function Grant(rate: real, capacity: real, l: Level, n: real, now: real): real {
    if Fits(n, capacity) && Refilled(rate, capacity, l, now).tokens >= n then n else 0.0
  }

  function Taken(rate: real, capacity: real, l: Level, n: real, now: real): Level {
    if !Fits(n, capacity) then l
    else Level(Refilled(rate, capacity, l, now).tokens - Grant(rate, capacity, l, n, now), now)
  }

  datatype Refusal = BadRequest | WaitTooLong | ClockDidNotAdvance

  class RateLimiter {
    const rate: real
    const capacity: real
    var tokens: real
    var last: real

    function View(): Level
      reads this
    {
      Level(tokens, last)
    }

    ghost predicate Valid()
      reads this
    {
      rate > 0.0 && capacity > 0.0 && 0.0 <= tokens <= capacity
    }

    constructor (rate: real, capacity: real, now: real)
      requires rate > 0.0 && capacity > 0.0
      ensures Valid() && this.rate == rate && this.capacity == capacity
      ensures View() == Level(capacity, now)
    {
      this.rate, this.capacity := rate, capacity;
      tokens, last := capacity, now;
    }

    method Refill(now: real)
      requires Valid()
      modifies this
      ensures Valid() && View() == Refilled(rate, capacity, old(View()), now)
    {
      var elapsed := Max(0.0, now - last);
      Gain(elapsed, rate);
      tokens := Min(capacity, tokens + Flow(elapsed, rate));
      last := now;
    }

    method TryAcquire(n: real, now: real) returns (r: Result<bool, Refusal>)
      requires Valid()
      modifies this
      ensures Valid()
      ensures r == if !Fits(n, capacity) then Err(BadRequest)
                   else Ok(Refilled(rate, capacity, old(View()), now).tokens >= n)
      ensures View() == Taken(rate, capacity, old(View()), n, now)
    {
      if n <= 0.0 || n > capacity { return Err(BadRequest); }
      Refill(now);
      if tokens >= n {
        tokens := tokens - n;
        return Ok(true);
      }
      r := Ok(false);
    }

    /** Blocks once: `now` is the reading before the sleep, `later` the one after it.  A
        request within the capacity that is willing to wait succeeds exactly when the
        clock has advanced by the wait that was computed. */
    method Acquire(n: real, maxWait: Option<real>, now: real, later: real) returns (r: Result<(), Refusal>)
      requires Valid()
      modifies this
      ensures Valid()
      ensures r == Err(BadRequest) <==> n <= 0.0 || n > capacity
      ensures var first := Refilled(rate, capacity, old(View()), now);
              var wait := (n - first.tokens) / rate;
              if n <= 0.0 || n > capacity then r == Err(BadRequest)
              else if first.tokens >= n then r == Ok(())
              else if maxWait.Some? && wait > maxWait.value then r == Err(WaitTooLong)
              else if later - now >= wait then r == Ok(())
              else r == Err(ClockDidNotAdvance)
    {
      var got := TryAcquire(n, now);
      if got.Err? { return Err(got.error); }
      if got.value { return Ok(()); }
      var wait := (n - tokens) / rate;
      if maxWait.Some? && wait > maxWait.value { return Err(WaitTooLong); }
      WaitIsExact(rate, capacity, View(), n, later);
      got := TryAcquire(n, later);
      r := if got == Ok(true) then Ok(()) else Err(ClockDidNotAdvance);
    }
  }

  lemma Gain(elapsed: real, rate: real)
    requires elapsed >= 0.0 && rate > 0.0
    ensures Flow(elapsed, rate) >= 0.0
  {
  }

  lemma Scale(a: real, b: real, rate: real)
    requires rate > 0.0
    ensures a >= b / rate <==> a * rate >= b
  {
    assert b / rate * rate == b;
    if a >= b / rate {
      assert (a - b / rate) * rate >= 0.0;
    } else {
      assert (b / rate - a) * rate > 0.0;
    }
  }

  /** Sleeping for the computed wait is just enough. */
  lemma WaitIsExact(rate: real, capacity: real, l: Level, n: real, later: real)
    requires rate > 0.0 && l.tokens < n <= capacity
    ensures Refilled(rate, capacity, l, later).tokens >= n <==> later - l.last >= (n - l.tokens) / rate
  {
    var elapsed := later - l.last;
    Scale(elapsed, n - l.tokens, rate);
    Scale(0.0, n - l.tokens, rate);
  }

  // -------------------------------------------------------------- a run of requests

  datatype Request = Request(n: real, now: real)

  ghost function LevelAfter(rate: real, capacity: real, l: Level, requests: seq<Request>): Level
    decreases |requests|
  {
    if requests == [] then l
    else LevelAfter(rate, capacity, Taken(rate, capacity, l, requests[0].n, requests[0].now), requests[1..])
  }

  /** How much a run of requests is granted in all. */
  ghost function Granted(rate: real, capacity: real, l: Level, requests: seq<Request>): real
    decreases |requests|
  {
    if requests == [] then 0.0
    else
      var q := requests[0];
      Grant(rate, capacity, l, q.n, q.now) +
      Granted(rate, capacity, Taken(rate, capacity, l, q.n, q.now), requests[1..])
  }

  /** How far the clock moves forwards, not counting its moves back. */
  ghost function Advance(from: real, requests: seq<Request>): real
    decreases |requests|
  {
    if requests == [] then 0.0
    else Max(0.0, requests[0].now - from) + Advance(requests[0].now, requests[1..])
  }

  lemma FlowAdds(a: real, b: real, rate: real)
    ensures Flow(a + b, rate) == Flow(a, rate) + Flow(b, rate)
    ensures Flow(0.0, rate) == 0.0
  {
  }

  lemma FlowGrows(a: real, b: real, rate: real)
    requires a <= b && rate > 0.0
    ensures Flow(a, rate) <= Flow(b, rate)
  {
    Gain(b - a, rate);
    FlowAdds(a, b - a, rate);
    hide Flow;
    assert a + (b - a) == b;
  }

  /** One request, granted, held off or refused. */
  lemma TakenIsLevel(rate: real, capacity: real, l: Level, n: real, now: real)
    requires rate > 0.0 && 0.0 <= l.tokens <= capacity
    ensures var next, granted := Taken(rate, capacity, l, n, now), Grant(rate, capacity, l, n, now);
            && 0.0 <= granted && 0.0 <= next.tokens && next.tokens + granted <= capacity
            && next.last == (if Fits(n, capacity) then now else l.last)
            && next.tokens + granted <= l.tokens + Flow(Max(0.0, next.last - l.last), rate)
  {
    Gain(Max(0.0, now - l.last), rate);
    FlowAdds(0.0, 0.0, rate);
    hide Flow;
  }

  /** A later start makes the clock advance by no more than the difference less. */
  lemma {:induction false} AdvanceFrom(from: real, to: real, requests: seq<Request>)
    ensures Advance(to, requests) <= Advance(from, requests) + Max(0.0, from - to)
    ensures Advance(from, requests) >= 0.0
    decreases |requests|
  {
    if requests != [] {
      AdvanceFrom(requests[0].now, requests[0].now, requests[1..]);
    }
  }

  /** What is granted, and what is left, came from the bucket or flowed in. */
  lemma {:induction false} NothingFromNothing(rate: real, capacity: real, l: Level, requests: seq<Request>)
    requires rate > 0.0 && 0.0 <= l.tokens <= capacity
    ensures Granted(rate, capacity, l, requests) + LevelAfter(rate, capacity, l, requests).tokens
            <= l.tokens + Flow(Advance(l.last, requests), rate)
    ensures 0.0 <= LevelAfter(rate, capacity, l, requests).tokens <= capacity
    decreases |requests|
  {
    if requests == [] {
      FlowAdds(0.0, 0.0, rate);
      hide Flow;
    } else {
      hide Flow, Taken, Refilled, Grant, Fits;
      var q, rest := requests[0], requests[1..];
      var next := Taken(rate, capacity, l, q.n, q.now);
      TakenIsLevel(rate, capacity, l, q.n, q.now);
      NothingFromNothing(rate, capacity, next, rest);
      AdvanceFrom(q.now, next.last, rest);
      var step := Max(0.0, next.last - l.last);
      FlowAdds(step, Advance(next.last, rest), rate);
      assert step + Advance(next.last, rest) <= Advance(l.last, requests);
      FlowGrows(step + Advance(next.last, rest), Advance(l.last, requests), rate);
    }
  }

  /** In any window of requests no more is granted than the capacity and what flows in
      while the clock advances from the first request to the last, whatever happened
      before, also if the clock jumps back, and whatever else was asked for and refused. */
  lemma {:induction false} WindowBound(rate: real, capacity: real, l: Level, requests: seq<Request>)
    requires rate > 0.0 && 0.0 <= l.tokens <= capacity && requests != []
    ensures Granted(rate, capacity, l, requests) <= capacity + Flow(Advance(requests[0].now, requests[1..]), rate)
    decreases |requests|
  {
    var q, rest := requests[0], requests[1..];
    var next := Taken(rate, capacity, l, q.n, q.now);
    TakenIsLevel(rate, capacity, l, q.n, q.now);
    if Fits(q.n, capacity) {
      hide Flow, Taken, Refilled, Grant;
      NothingFromNothing(rate, capacity, next, rest);
    } else if rest == [] {
      FlowAdds(0.0, 0.0, rate);
    } else {
      assert next == l && Grant(rate, capacity, l, q.n, q.now) == 0.0;
      hide Flow, Taken, Refilled, Grant;
      WindowBound(rate, capacity, l, rest);
      assert Advance(rest[0].now, rest[1..]) <= Advance(q.now, rest);
      FlowGrows(Advance(rest[0].now, rest[1..]), Advance(q.now, rest), rate);
    }
  }

  /** The clock never goes back from one request to the next. */
  ghost predicate Steady(requests: seq<Request>) {
    forall i :: 0 < i < |requests| ==> requests[i - 1].now <= requests[i].now
  }

  lemma {:induction false} AdvanceIsSpan(from: real, requests: seq<Request>)
    requires Steady(requests) && (requests != [] ==> from <= requests[0].now)
    ensures Advance(from, requests) == if requests == [] then 0.0 else requests[|requests| - 1].now - from
    decreases |requests|
  {
    if requests != [] {
      var rest := requests[1..];
      assert forall i :: 0 < i < |rest| ==> rest[i - 1] == requests[i] && rest[i] == requests[i + 1];
      assert rest != [] ==> rest[0] == requests[1] && requests[1 - 1].now <= requests[1].now;
      AdvanceIsSpan(requests[0].now, rest);
    }
  }

  /** With a clock that never goes back the window is simply the time it spans. */
  lemma SteadyWindowBound(rate: real, capacity: real, l: Level, requests: seq<Request>)
    requires rate > 0.0 && 0.0 <= l.tokens <= capacity && requests != [] && Steady(requests)
    ensures Granted(rate, capacity, l, requests) <=
            capacity + Flow(requests[|requests| - 1].now - requests[0].now, rate)
  {
    hide Flow, Granted;
    WindowBound(rate, capacity, l, requests);
    AdvanceIsSpan(requests[0].now, requests);
    assert Advance(requests[0].now, requests) == Advance(requests[0].now, requests[1..]);
  }

  /** With one that jumps back it is not: a window that spans no time at all is granted
      twice the capacity. */
  lemma JumpingBackGrantsTwice(rate: real, capacity: real, now: real)
    requires rate > 0.0 && capacity > 0.0
    ensures var back := now - capacity / rate;
            var requests := [Request(capacity, now), Request(capacity, back), Request(capacity, now)];
            Granted(rate, capacity, Level(capacity, now), requests) == capacity + capacity
  {
    var back := now - capacity / rate;
    Scale(0.0, capacity, rate);
    assert capacity / rate * rate == capacity;
    var l0 := Level(capacity, now);
    var l1 := Taken(rate, capacity, l0, capacity, now);
    assert l1 == Level(0.0, now);
    var l2 := Taken(rate, capacity, l1, capacity, back);
    assert l2 == Level(0.0, back);
    var l3 := Taken(rate, capacity, l2, capacity, now);
    assert Refilled(rate, capacity, l2, now).tokens == capacity;
    var q := [Request(capacity, now), Request(capacity, back), Request(capacity, now)];
    assert q[1..] == [Request(capacity, back), Request(capacity, now)];
    assert q[1..][1..] == [Request(capacity, now)];
    assert Granted(rate, capacity, l2, [Request(capacity, now)]) == capacity;
  }
}
