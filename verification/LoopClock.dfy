/** The clock of the event loop: seconds, without the time the loop was blocked in a
    handler beyond one second per round. All of it in 32 bits, 0 meaning "not set". */
module LoopClock {
  import opened Wrapping

  /** What the monotonic clock reads at second `t`; 0 is also its answer when it fails. */
  function Mono(t: nat): nat {
    (t + 1) % WRAP
  }

  /** The reading of an unbounded clock: 32 bits, and never 0. */
  function Shown(e: int): nat {
    if e % WRAP == 0 then 1 else e % WRAP
  }

  /** What a round that was busy that long loses. */
  function Charge(busy: nat): nat {
    if busy > 1 then busy - 1 else 0
  }

  function Least(a: nat, b: nat): nat {
    if a < b then a else b
  }

  lemma {:induction false} SmallRemainder(a: nat)
    ensures a % WRAP <= a && (a < WRAP ==> a % WRAP == a)
  {
  }

  class Clock {
    var now: nat
    var stall: nat
    var returnedAt: nat

    ghost var at: nat       // the second of the last reading after a wait
    ghost var taken: nat    // all the blocked time taken out so far
    ghost var from: nat     // the second the last wait began

    /** The clock without its wrap-around. */
    ghost function Exact(): int
      reads `at, `taken
    {
      at + 1 - taken
    }

    ghost predicate Valid()
      reads this
    {
      && taken <= at && stall == taken % WRAP
      && (returnedAt == 0 || returnedAt == Mono(at))
      && now == if Mono(at) == 0 then 0 else Shown(at + 1 - taken)
    }

    /** Between the two readings of a round. */
    ghost predicate Waiting()
      reads `taken, `from, `stall
    {
      taken <= from && stall == taken % WRAP
    }

    constructor (t: nat)
      ensures Valid() && at == t && taken == 0 && returnedAt == 0
    {
      now, stall, returnedAt := Mono(t), 0, 0;
      at, taken, from := t, 0, t;
    }

    /** Before the wait at second `t`: take out what the last round was blocked for. The
        result is how long to wait, in milliseconds. */
    method BeforeWait(t: nat, pending: bool, clients: nat) returns (timeout: int)
      requires Valid() && t >= at
      modifies `stall, `taken, `from
      ensures Waiting() && from == t
      ensures taken == old(taken) + if Mono(t) == 0 || returnedAt == 0 then 0 else Charge((t - at) % WRAP)
      ensures timeout == if Mono(t) != 0 && pending then 0 else if Mono(t) != 0 && clients > 0 then 1000 else -1
    {
      var mono := Mono(t);
      from := t;
      if mono == 0 {
        return -1;
      }
      if returnedAt != 0 {
        var busy := (mono - returnedAt) % WRAP;
        WrapDifference(t + 1, at + 1);
        SmallRemainder(t - at);
        if busy > 1 {
          WrapSum(taken, busy - 1);
          stall := (stall + (busy - 1)) % WRAP;
        }
        taken := taken + Charge(busy);
      }
      timeout := if pending then 0 else if clients > 0 then 1000 else -1;
    }

    /** After the wait, at second `t`. */
    method AfterWait(t: nat)
      requires Waiting() && t >= from
      modifies `now, `returnedAt, `at
      ensures Valid() && at == t && returnedAt == Mono(t)
    {
      var mono := Mono(t);
      returnedAt := mono;
      at := t;
      if mono == 0 {
        now := 0;
      } else {
        var n := (mono - stall) % WRAP;
        WrapDifference(t + 1, taken);
        now := if n != 0 then n else 1;
      }
    }

    /** A round never turns the clock back, and it advances by the time waited and at most
        one second of the time before. */
    method Round(before: nat, after: nat, pending: bool, clients: nat)
      requires Valid() && at <= before <= after
      modifies this
      ensures Valid() && at == after && returnedAt == Mono(after)
      ensures Exact() >= old(Exact()) + (after - before)
      ensures old(returnedAt) != 0 && Mono(before) != 0 && before - old(at) < WRAP ==>
                Exact() == old(Exact()) + (after - before) + Least(before - old(at), 1)
    {
      SmallRemainder(before - at);
      var _ := BeforeWait(before, pending, clients);
      AfterWait(after);
    }
  }

  // ----- whole runs -----

  datatype Tick = Tick(before: nat, after: nat)

  ghost predicate Ordered(at: nat, run: seq<Tick>)
    decreases |run|
  {
    run == [] || (at <= run[0].before <= run[0].after && Ordered(run[0].after, run[1..]))
  }

  /** A clock that reads something other than 0 every time. */
  ghost predicate Working(at: nat, run: seq<Tick>)
    decreases |run|
  {
    run == [] || (Mono(at) != 0 && Mono(run[0].before) != 0 && run[0].before - at < WRAP && Working(run[0].after, run[1..]))
  }

  ghost function Taken(at: nat, run: seq<Tick>): nat
    requires Ordered(at, run)
    decreases |run|
  {
    if run == [] then 0
    else (if Mono(at) == 0 || Mono(run[0].before) == 0 then 0 else Charge((run[0].before - at) % WRAP))
         + Taken(run[0].after, run[1..])
  }

  ghost function End(at: nat, run: seq<Tick>): nat
    decreases |run|
  {
    if run == [] then at else End(run[0].after, run[1..])
  }

  ghost function Waited(at: nat, run: seq<Tick>): nat
    requires Ordered(at, run)
    decreases |run|
  {
    if run == [] then 0 else run[0].after - run[0].before + Waited(run[0].after, run[1..])
  }

  /** Over any run the clock advances by what was waited and at most a second per round. */
  lemma {:induction false} RunAdvance(at: nat, run: seq<Tick>)
    requires Ordered(at, run)
    ensures End(at, run) - at - Taken(at, run) >= Waited(at, run)
    ensures Working(at, run) ==> End(at, run) - at - Taken(at, run) <= Waited(at, run) + |run|
    decreases |run|
  {
    if run != [] {
      SmallRemainder(run[0].before - at);
      RunAdvance(run[0].after, run[1..]);
    }
  }

  /** The method does what the run is made of. */
  method Rounds(c: Clock, run: seq<Tick>, pending: bool, clients: nat)
    requires c.Valid() && c.returnedAt == Mono(c.at) && Ordered(c.at, run)
    modifies c
    ensures c.Valid() && c.at == End(old(c.at), run) && c.taken == old(c.taken) + Taken(old(c.at), run)
    decreases |run|
  {
    if run != [] {
      var _ := c.BeforeWait(run[0].before, pending, clients);
      c.AfterWait(run[0].after);
      Rounds(c, run[1..], pending, clients);
    }
  }

  // ----- deadlines -----

  function Expired(now: nat, since: nat, limit: int): bool {
    limit > 0 && since != 0 && (now - since) % WRAP >= limit
  }

  /** A deadline is exact for any two readings less than 2^32 seconds apart, but for the
      one second the floor can add or take when the clock is at a multiple of 2^32. */
  lemma {:induction false} ExpiredExact(e: int, s: int, limit: int)
    requires limit > 0 && s <= e
    ensures var age := e - s + (if e % WRAP == 0 then 1 else 0) - (if s % WRAP == 0 then 1 else 0);
            0 <= age < WRAP ==> (Expired(Shown(e), Shown(s), limit) <==> age >= limit)
  {
    var e1, s1 := if e % WRAP == 0 then e + 1 else e, if s % WRAP == 0 then s + 1 else s;
    WrapDifference(e1, s1);
    AtMultiple(e);
    AtMultiple(s);
  }

  lemma {:induction false} AtMultiple(e: int)
    ensures Shown(e) == (if e % WRAP == 0 then e + 1 else e) % WRAP
  {
  }

  function Later(a: nat, b: nat): nat {
    if 0 < (a - b) % WRAP < WRAP / 2 then a else b
  }

  /** Of two stamps less than 2^31 seconds apart the later one. */
  lemma {:induction false} LaterExact(a: int, b: int)
    requires -(WRAP / 2) <= a - b < WRAP / 2
    ensures Later(a % WRAP, b % WRAP) == (if a >= b then a else b) % WRAP
  {
    WrapDifference(a, b);
  }
}
