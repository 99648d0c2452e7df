/**
 * The last-ditch limit on the packets an interface sends: `check_bucket` of babeld/message.c.
 * Tokens are added only when the bucket is found empty, for the time since it last was.
 */
module TokenBucket {
  import opened Basics

  const TOKENS_MAX := 200
  const TOKENS_PER_SEC := 40

  datatype State = State(tokens: int, time: int)

  function Positive(x: int): nat { if x > 0 then x else 0 }

  class Bucket {
    var bucket: int
    var bucketTime: int

    function Value(): State
      reads this
    {
      State(bucket, bucketTime)
    }

    constructor (now: int)
      ensures Value() == Created(now)
    {
      bucket, bucketTime := TOKENS_MAX, now;
    }

    /** `check_bucket`. */
    method Check(now: int) returns (ok: bool)
      modifies this
      ensures (Value(), ok) == Checked(old(Value()), now)
    {
      if bucket <= 0 {
        var seconds := now - bucketTime;
        if seconds > 0 {
          bucket := Min(TOKENS_MAX, seconds * TOKENS_PER_SEC);
        }
        bucketTime := now;
      }
      if bucket > 0 {
        bucket := bucket - 1;
        ok := true;
      } else {
        ok := false;
      }
    }
  }

  function Created(now: int): State {
    State(TOKENS_MAX, now)
  }

  function Refilled(b: State, now: int): State {
    if b.tokens > 0 then b
    else State(if now > b.time then Min(TOKENS_MAX, (now - b.time) * TOKENS_PER_SEC) else b.tokens, now)
  }

  function Checked(b: State, now: int): (State, bool) {
    var r := Refilled(b, now);
    if r.tokens > 0 then (r.(tokens := r.tokens - 1), true) else (r, false)
  }

  /** How many checks of a run succeed; the clock may do anything between them. */
  function Granted(b: State, times: seq<int>): nat
    decreases |times|
  {
    if times == [] then 0
    else
      var (b', ok) := Checked(b, times[0]);
      (if ok then 1 else 0) + Granted(b', times[1..])
  }

  /** How far the clock, showing `now`, moves forward over a run, not counting steps back. */
  function Forward(now: int, times: seq<int>): nat
    decreases |times|
  {
    if times == [] then 0 else Positive(times[0] - now) + Forward(times[0], times[1..])
  }

  predicate Ascending(now: int, times: seq<int>)
    decreases |times|
  {
    times != [] ==> now <= times[0] && Ascending(times[0], times[1..])
  }

  /** Tokens an empty bucket would get right now. */
  function Owed(b: State, now: int): nat {
    Min(TOKENS_MAX, Positive(now - b.time) * TOKENS_PER_SEC)
  }

  /** From any state: the tokens present, those owed, and forty for each second that passes. */
  lemma {:induction false} GrantedBound(b: State, now: int, times: seq<int>)
    ensures Granted(b, times) <= Positive(b.tokens) + Owed(b, now) + TOKENS_PER_SEC * Forward(now, times)
    decreases |times|
  {
    if times != [] {
      var (b', ok) := Checked(b, times[0]);
      GrantedBound(b', times[0], times[1..]);
      assert Owed(b, times[0]) <= Owed(b, now) + TOKENS_PER_SEC * Positive(times[0] - now);
    }
  }

  lemma {:induction false} ForwardAscending(now: int, times: seq<int>)
    requires Ascending(now, times)
    ensures Forward(now, times) == if times == [] then 0 else times[|times| - 1] - now
    decreases |times|
  {
    if |times| > 1 {
      ForwardAscending(times[0], times[1..]);
    }
  }

  /** From the creation of the interface: 200 packets, and 40 for each second since. */
  lemma GrantedSinceCreation(start: int, times: seq<int>)
    requires times != [] && Ascending(start, times)
    ensures Granted(Created(start), times) <= TOKENS_MAX + TOKENS_PER_SEC * (times[|times| - 1] - start)
  {
    GrantedBound(Created(start), start, times);
    ForwardAscending(start, times);
  }

  function After(b: State, times: seq<int>): State
    decreases |times|
  {
    if times == [] then b else After(Checked(b, times[0]).0, times[1..])
  }

  /**
   * With a clock that does not step back, packets sent and tokens left are covered by the tokens at the start and
   * those of the time up to the last refill.
   */
  lemma {:induction false} Balance(b: State, times: seq<int>)
    requires b.tokens >= 0 && Ascending(b.time, times)
    ensures After(b, times).tokens >= 0 && After(b, times).time >= b.time
    ensures Granted(b, times) + After(b, times).tokens <= b.tokens + TOKENS_PER_SEC * (After(b, times).time - b.time)
    decreases |times|
  {
    if times != [] {
      var b' := Checked(b, times[0]).0;
      AscendingFrom(b'.time, times[0], times[1..]);
      Balance(b', times[1..]);
    }
  }

  lemma AscendingFrom(earlier: int, now: int, times: seq<int>)
    requires earlier <= now && Ascending(now, times)
    ensures Ascending(earlier, times)
  {
  }

  /** Over any stretch of time: twice the capacity of the bucket, and 40 for each second. */
  lemma GrantedInAnyWindow(b: State, now: int, times: seq<int>)
    requires b.tokens <= TOKENS_MAX
    ensures Granted(b, times) <= 2 * TOKENS_MAX + TOKENS_PER_SEC * Forward(now, times)
  {
    GrantedBound(b, now, times);
  }

  function Repeat(now: int, n: nat): (r: seq<int>)
    ensures |r| == n
  {
    seq(n, i => now)
  }

  lemma {:induction false} DrainThen(b: State, now: int, n: nat, rest: seq<int>)
    requires n <= b.tokens
    ensures Granted(b, Repeat(now, n) + rest) == n + Granted(b.(tokens := b.tokens - n), rest)
    decreases n
  {
    if n == 0 {
      assert Repeat(now, 0) + rest == rest;
    } else {
      assert (Repeat(now, n) + rest)[1..] == Repeat(now, n - 1) + rest;
      DrainThen(b.(tokens := b.tokens - 1), now, n - 1, rest);
    }
  }

  /**
   * The window bound is reached: an interface left idle for five seconds can send 400 packets
   * at once, not 200, because what it is owed is added only after the bucket runs dry.
   */
  lemma BurstIsTwiceTheCapacity(start: int, now: int)
    requires now >= start + 5
    ensures Granted(Created(start), Repeat(now, 2 * TOKENS_MAX)) == 2 * TOKENS_MAX
    ensures Forward(now, Repeat(now, 2 * TOKENS_MAX)) == 0
  {
    var half := Repeat(now, TOKENS_MAX);
    assert Repeat(now, 2 * TOKENS_MAX) == half + half;
    DrainThen(Created(start), now, TOKENS_MAX, half);
    var full := State(TOKENS_MAX, now);
    assert Checked(State(0, start), now) == Checked(full, now);
    assert Granted(State(0, start), half) == Granted(full, half);
    assert half + [] == half;
    DrainThen(full, now, TOKENS_MAX, []);
    ForwardConstant(now, 2 * TOKENS_MAX);
  }

  lemma {:induction false} ForwardConstant(now: int, n: nat)
    ensures Forward(now, Repeat(now, n)) == 0
  {
    if n > 0 {
      assert Repeat(now, n)[1..] == Repeat(now, n - 1);
      ForwardConstant(now, n - 1);
    }
  }

  /** After a refusal at `t`, even one caused by a clock set back, any later second succeeds. */
  lemma RefusalIsBrief(b: State, t: int, now: int)
    requires !Checked(b, t).1 && now > t
    ensures Checked(Checked(b, t).0, now).1
  {
  }
}
