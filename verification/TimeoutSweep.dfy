/** The sweep over all sockets once per second: what it closes, spares and pings, at most
    64 of each kind in one go. */
module TimeoutSweep {
  import opened Sequences
  import opened Wrapping
  import opened LoopClock
  import L = LinkedLists

  const BATCH: nat := 64

  type Id = L.Id

  datatype Action = Keep | Close | CloseIfIdle | Ping

  /** Spared less than two ticks ago. */
  predicate Recent(spared: nat, now: nat) {
    spared != 0 && (now - spared) % WRAP < 2
  }

  /** There is something to do about a socket. */
  predicate IsDue(action: Action, spared: nat, now: nat) {
    !action.Keep? && !(action.CloseIfIdle? && Recent(spared, now))
  }

  /** A socket that comes up for closing is closed, unless this is the first time that
      input is waiting at a deadline that allows for it. */
  predicate Goes(action: Action, spared: nat, waiting: bool) {
    !(action.CloseIfIdle? && spared == 0 && waiting)
  }

  datatype Life = Gone | There(spared: nat)

  /** What a sweep is there to do to a socket that was last spared at `spared`, 0 if it was
      not: whose deadline has passed is closed, but with input waiting it is spared once and
      then left alone for two ticks; one with nothing against it may be spared anew. */
  function Outcome(action: Action, spared: nat, now: nat, waiting: bool): Life {
    match action
    case Keep => There(0)
    case Ping => There(spared)
    case Close => Gone
    case CloseIfIdle =>
      if spared == 0 then if waiting then There(now) else Gone
      else if (now - spared) % 0x1_0000_0000 < 2 then There(spared)
      else Gone
  }

  ghost function Elements(s: seq<Id>): set<Id> {
    set x | x in s
  }

  lemma {:induction false} ElementsSize(s: seq<Id>)
    requires Distinct(s)
    ensures |Elements(s)| == |s|
  {
    if s != [] {
      var n := |s| - 1;
      ElementsSize(s[..n]);
      assert Elements(s) == Elements(s[..n]) + {s[n]};
    }
  }

  /** The sockets still to be acted on. */
  ghost function Due(list: seq<Id>, action: map<Id, Action>, spared: map<Id, nat>, now: nat): set<Id>
    requires forall x :: x in list ==> x in action && x in spared
  {
    set x | x in list && IsDue(action[x], spared[x], now)
  }

  /** A full batch of sockets that were due. */
  lemma {:induction false} Fewer(due: set<Id>, closes: seq<Id>, pings: seq<Id>)
    requires Distinct(closes) && Distinct(pings) && Elements(closes) <= due && Elements(pings) <= due
    ensures |closes| == BATCH || |pings| == BATCH ==> |due - Elements(closes) - Elements(pings)| + BATCH <= |due|
  {
    var c, p := Elements(closes), Elements(pings);
    ElementsSize(closes);
    ElementsSize(pings);
    Smaller(due - c - p, due - c);
    Smaller(due - c - p, due - p);
  }

  lemma {:induction false} Smaller(a: set<Id>, b: set<Id>)
    requires a <= b
    ensures |a| <= |b|
  {
    assert b == a + (b - a);
  }

  /** Who was collected is not due any more, everybody else is as before. */
  lemma {:induction false} DueAfter(list: seq<Id>, action: map<Id, Action>, spared: map<Id, nat>,
                                    list': seq<Id>, action': map<Id, Action>, spared': map<Id, nat>,
                                    now: nat, closes: seq<Id>, pings: seq<Id>)
    requires forall x :: x in list ==> x in action && x in spared
    requires forall x :: x in list' ==> x in list && x in action' && x in spared'
    requires forall x :: x in list && x !in closes ==> x in list'
    requires forall x :: x in list' ==> action'[x] == if x in pings then Keep else action[x]
    requires forall x :: x in list' && x in closes ==> action[x].CloseIfIdle? && spared'[x] == now != 0
    requires forall x :: x in list' && x !in closes && !action'[x].Keep? ==> spared'[x] == spared[x]
    ensures Due(list', action', spared', now) == Due(list, action, spared, now) - Elements(closes) - Elements(pings)
  {
  }

  /** What has become of a socket. */
  ghost function LifeIn(list: seq<Id>, spared: map<Id, nat>, x: Id): Life
    requires x in list ==> x in spared
  {
    if x in list then There(spared[x]) else Gone
  }

  /** What became of the sockets on the list: every one was treated as it should be, or, by
      a sweep that had more to do than it could, left as it was. */
  ghost predicate Swept(list: seq<Id>, action: map<Id, Action>, spared: map<Id, nat>, list': seq<Id>, spared': map<Id, nat>,
                        now: nat, waiting: Id -> bool, pending: bool)
    requires forall x :: x in list ==> x in action && x in spared
    requires forall x :: x in list' ==> x in spared'
  {
    && (forall x :: x in list' ==> x in list)
    && forall x :: x in list ==>
         || LifeIn(list', spared', x) == Outcome(action[x], spared[x], now, waiting(x))
         || (pending && LifeIn(list', spared', x) == There(spared[x]))
  }

  lemma {:induction false} AllSwept(list: seq<Id>, action: map<Id, Action>, spared: map<Id, nat>, list': seq<Id>, spared': map<Id, nat>,
                                    now: nat, waiting: Id -> bool, closes: seq<Id>, pings: seq<Id>, pending: bool)
    requires forall x :: x in list ==> x in action && x in spared
    requires Collected(list, action, spared, now, |list|, closes, pings, pending)
    requires forall x :: x in list' <==> x in list && !(x in closes && Goes(action[x], spared[x], waiting(x)))
    requires forall x :: x in list' ==> x in spared' && (x in closes ==> spared'[x] == now)
    requires forall x :: x in list' && x !in closes ==>
               spared'[x] == spared[x] || (action[x].Keep? && spared'[x] == 0)
    requires !pending ==> forall x :: x in list' && x !in closes && action[x].Keep? ==> spared'[x] == 0
    ensures Swept(list, action, spared, list', spared', now, waiting, pending)
    ensures forall x :: x in closes ==> LifeIn(list', spared', x) == Outcome(action[x], spared[x], now, waiting(x))
  {
    assert list[..|list|] == list;
  }

  /** What the walk has collected from the first `i` sockets. */
  ghost predicate Collected(list: seq<Id>, action: map<Id, Action>, spared: map<Id, nat>, now: nat,
                            i: nat, closes: seq<Id>, pings: seq<Id>, pending: bool)
    requires i <= |list| && forall x :: x in list ==> x in action && x in spared
  {
    && Distinct(closes) && Distinct(pings) && |closes| <= BATCH && |pings| <= BATCH
    && (forall x :: x in closes ==> x in list[..i] && (action[x].Close? || action[x].CloseIfIdle?) && IsDue(action[x], spared[x], now))
    && (forall x :: x in pings ==> x in list[..i] && action[x].Ping?)
    && (!pending ==> forall x :: x in list[..i] && IsDue(action[x], spared[x], now) ==> x in closes || x in pings)
    && (pending ==> |closes| == BATCH || |pings| == BATCH)
  }

  /** One socket further. */
  lemma {:induction false} CollectNext(list: seq<Id>, action: map<Id, Action>, spared: map<Id, nat>, now: nat,
                                       i: nat, closes: seq<Id>, pings: seq<Id>, pending: bool)
    requires i < |list| && Distinct(list) && forall x :: x in list ==> x in action && x in spared
    requires Collected(list, action, spared, now, i, closes, pings, pending)
    ensures var x := list[i];
            && (!IsDue(action[x], spared[x], now) ==> Collected(list, action, spared, now, i + 1, closes, pings, pending))
            && (action[x].Ping? && |pings| < BATCH ==> Collected(list, action, spared, now, i + 1, closes, pings + [x], pending))
            && (action[x].Ping? && |pings| == BATCH ==> Collected(list, action, spared, now, i + 1, closes, pings, true))
            && (IsDue(action[x], spared[x], now) && !action[x].Ping? && |closes| < BATCH ==>
                  Collected(list, action, spared, now, i + 1, closes + [x], pings, pending))
            && (|closes| == BATCH ==> Collected(list, action, spared, now, i, closes, pings, true))
  {
    var x := list[i];
    assert list[..i + 1] == list[..i] + [x];
    assert x !in list[..i];
  }

  /** Who has nothing against him may be spared anew: some of those on the list, and all of
      the first `i`. */
  ghost predicate Forgiven(list: seq<Id>, action: map<Id, Action>, spared: map<Id, nat>, spared': map<Id, nat>, i: nat)
    requires i <= |list| && forall x :: x in list ==> x in action && x in spared && x in spared'
  {
    && (forall x :: x in list ==> spared'[x] == spared[x] || (action[x].Keep? && spared'[x] == 0))
    && (forall j :: 0 <= j < i && action[list[j]].Keep? ==> spared'[list[j]] == 0)
  }

  /** What a sweep has done to the list, with what it has collected. */
  ghost predicate Worked(list: seq<Id>, action: map<Id, Action>, spared: map<Id, nat>,
                         list': seq<Id>, action': map<Id, Action>, spared': map<Id, nat>,
                         now: nat, waiting: Id -> bool, closes: seq<Id>, pings: seq<Id>, pending: bool)
    requires forall x :: x in list ==> x in action && x in spared
    requires forall x :: x in list' ==> x in action' && x in spared'
  {
    && Collected(list, action, spared, now, |list|, closes, pings, pending)
    && (forall x :: x in list' ==> x in list && action'[x] == if x in pings then Keep else action[x])
    && (forall x :: x in list' <==> x in list && !(x in closes && Goes(action[x], spared[x], waiting(x))))
    && (forall x :: x in list' && x in closes ==> spared'[x] == now)
    && (forall x :: x in list' && x !in closes ==> spared'[x] == spared[x] || (action[x].Keep? && spared'[x] == 0))
    && (!pending ==> forall x :: x in list' && x !in closes && action[x].Keep? ==> spared'[x] == 0)
  }

  lemma {:induction false} WorkedOut(list: seq<Id>, action: map<Id, Action>, spared: map<Id, nat>,
                                     list': seq<Id>, action': map<Id, Action>, spared': map<Id, nat>,
                                     now: nat, waiting: Id -> bool, closes: seq<Id>, pings: seq<Id>, pending: bool)
    requires forall x :: x in list ==> x in action && x in spared
    requires forall x :: x in list' ==> x in action' && x in spared'
    requires now != 0 && Worked(list, action, spared, list', action', spared', now, waiting, closes, pings, pending)
    ensures var due, due' := Due(list, action, spared, now), Due(list', action', spared', now);
            && due' == due - Elements(closes) - Elements(pings)
            && (!pending ==> due' == {})
            && (pending ==> |due'| + 64 <= |due|)
    ensures Swept(list, action, spared, list', spared', now, waiting, pending)
    ensures forall x :: x in closes ==> x in list && LifeIn(list', spared', x) == Outcome(action[x], spared[x], now, waiting(x))
    ensures forall x :: x in pings ==> x in list && action[x].Ping?
    ensures !pending ==> forall x :: x in list && action[x].Ping? ==> x in pings
  {
    assert list[..|list|] == list;
    Fewer(Due(list, action, spared, now), closes, pings);
    DueAfter(list, action, spared, list', action', spared', now, closes, pings);
    AllSwept(list, action, spared, list', spared', now, waiting, closes, pings, pending);
  }

  class Sweeper {
    var list: seq<Id>
    var action: map<Id, Action>      // the verdict the sweep reads off each socket
    var sparedAt: map<Id, nat>
    var pending: bool                // the last sweep had more to do

    ghost predicate Valid()
      reads this
    {
      Distinct(list) && forall x :: x in list ==> x in action && x in sparedAt
    }

    ghost function DueNow(now: nat): set<Id>
      requires Valid()
      reads this
    {
      Due(list, action, sparedAt, now)
    }

    ghost function LifeOf(x: Id): Life
      requires Valid()
      reads this
    {
      LifeIn(list, sparedAt, x)
    }

    /** The verdicts are read anew for every sweep. */
    method Look(verdict: Id -> Action)
      requires Valid()
      modifies `action
      ensures Valid() && forall x :: x in list ==> action[x] == verdict(x)
    {
      action := map x | x in list :: verdict(x);
    }

    /** The walk over the list. */
    method Collect(now: nat) returns (closes: seq<Id>, pings: seq<Id>)
      requires Valid()
      modifies `sparedAt, `pending
      ensures Valid() && Collected(list, action, old(sparedAt), now, |list|, closes, pings, pending)
      ensures Forgiven(list, action, old(sparedAt), sparedAt, if pending then 0 else |list|)
    {
      pending, closes, pings := false, [], [];
      var i, stop := 0, false;
      while i < |list| && !stop
        invariant i <= |list| && Valid() && Forgiven(list, action, old(sparedAt), sparedAt, i)
        invariant Collected(list, action, old(sparedAt), now, i, closes, pings, pending)
        invariant stop ==> pending
        decreases |list| - i, !stop
      {
        var x := list[i];
        CollectNext(list, action, old(sparedAt), now, i, closes, pings, pending);
        if action[x].Keep? {
          sparedAt := sparedAt[x := 0];
        } else if IsDue(action[x], sparedAt[x], now) {
          if action[x].Ping? {
            if |pings| < BATCH {
              pings := pings + [x];
            } else {
              pending := true;
            }
          } else if |closes| == BATCH {
            pending, stop := true, true;
          } else {
            closes := closes + [x];
          }
        }
        if !stop {
          i := i + 1;
        }
      }
    }

    /** Ping and close what was collected. */
    method Act(closes: seq<Id>, pings: seq<Id>, now: nat, waiting: Id -> bool)
      requires Valid() && Distinct(closes) && (forall x :: x in closes ==> x in list && !action[x].Ping?)
      requires forall x :: x in pings ==> x in list && action[x].Ping?
      modifies `list, `action, `sparedAt
      ensures Valid()
      ensures forall x :: x in list ==> x in old(list) && action[x] == if x in pings then Keep else old(action)[x]
      ensures forall x :: x in list <==> x in old(list) && !(x in closes && Goes(old(action)[x], old(sparedAt)[x], waiting(x)))
      ensures forall x :: x in list ==> sparedAt[x] == if x in closes then now else old(sparedAt)[x]
    {
      SendPings(pings);
      CloseAll(closes, now, waiting);
    }

    /** Collect, then act. */
    method Work(now: nat, waiting: Id -> bool) returns (ghost closes: seq<Id>, ghost pings: seq<Id>)
      requires Valid()
      modifies this
      ensures Valid() && Worked(old(list), old(action), old(sparedAt), list, action, sparedAt, now, waiting, closes, pings, pending)
    {
      var c, p := Collect(now);
      closes, pings := c, p;
      Act(c, p, now, waiting);
    }

    /** What a sweep at a second that is set does: every socket is treated as it should be,
        or left for the next one if there are too many; those it has collected are no longer
        due, and if it could not collect all that were, there are at least 64 fewer. */
    method Sweep(now: nat, waiting: Id -> bool) returns (ghost closes: seq<Id>, ghost pings: seq<Id>)
      requires Valid() && now != 0
      modifies this
      ensures Valid() && DueNow(now) == old(DueNow(now)) - Elements(closes) - Elements(pings)
      ensures !pending ==> DueNow(now) == {}
      ensures pending ==> |DueNow(now)| + 64 <= |old(DueNow(now))|
      ensures Swept(old(list), old(action), old(sparedAt), list, sparedAt, now, waiting, pending)
      ensures |closes| <= 64 && |pings| <= 64
      ensures forall x :: x in closes ==> x in old(list)
      ensures forall x :: x in closes ==> LifeOf(x) == Outcome(old(action)[x], old(sparedAt)[x], now, waiting(x))
      ensures forall x :: x in pings ==> x in old(list) && old(action)[x].Ping?
      ensures !pending ==> forall x :: x in old(list) && old(action)[x].Ping? ==> x in pings
    {
      closes, pings := Work(now, waiting);
      WorkedOut(old(list), old(action), old(sparedAt), list, action, sparedAt, now, waiting, closes, pings, pending);
    }

    /** A ping settles the socket for this second. */
    method SendPings(pings: seq<Id>)
      requires Valid() && forall x :: x in pings ==> x in list
      modifies `action
      ensures Valid() && action.Keys == old(action).Keys
      ensures forall x :: x in action ==> action[x] == if x in pings then Keep else old(action)[x]
    {
      for i := 0 to |pings|
        invariant Valid() && action.Keys == old(action).Keys
        invariant forall x :: x in action ==> action[x] == if x in pings[..i] then Keep else old(action)[x]
      {
        assert pings[..i + 1] == pings[..i] + [pings[i]];
        assert pings[i] in list;
        action := action[pings[i] := Keep];
      }
      assert pings[..|pings|] == pings;
    }

    /** Close or spare one socket. */
    method CloseOne(x: Id, now: nat, waiting: bool)
      requires Valid() && x in list
      modifies `list, `sparedAt
      ensures Valid() && forall y :: y in list <==> y in old(list) && !(y == x && Goes(action[x], old(sparedAt)[x], waiting))
      ensures sparedAt == if Goes(action[x], old(sparedAt)[x], waiting) then old(sparedAt) else old(sparedAt)[x := now]
    {
      if Goes(action[x], sparedAt[x], waiting) {
        ghost var k :| 0 <= k < |list| && list[k] == x;
        var rest := Unlisted(list, x, k);
        list := rest;
      } else {
        sparedAt := sparedAt[x := now];
      }
    }

    method CloseAll(closes: seq<Id>, now: nat, waiting: Id -> bool)
      requires Valid() && Distinct(closes) && forall x :: x in closes ==> x in list
      modifies `list, `sparedAt
      ensures Valid()
      ensures forall y :: y in list <==> y in old(list) && !(y in closes && Goes(action[y], old(sparedAt)[y], waiting(y)))
      ensures forall y :: y in list ==>
                sparedAt[y] == if y in closes then now else old(sparedAt)[y]
    {
      for i := 0 to |closes|
        invariant Valid()
        invariant forall y :: y in list <==> y in old(list) && !(y in closes[..i] && Goes(action[y], old(sparedAt)[y], waiting(y)))
        invariant forall y :: y in list ==> sparedAt[y] == if y in closes[..i] then now else old(sparedAt)[y]
      {
        assert closes[..i + 1] == closes[..i] + [closes[i]];
        assert closes[i] !in closes[..i] && closes[i] in list;
        CloseOne(closes[i], now, waiting(closes[i]));
      }
      assert closes[..|closes|] == closes;
    }
  }

  /** The list without `x`. */
  function Unlisted(list: seq<Id>, x: Id, ghost k: nat): (r: seq<Id>)
    requires Distinct(list) && k < |list| && list[k] == x
    ensures Distinct(r) && forall y :: y in r <==> y in list && y != x
  {
    if list[0] == x then
      assert list == [x] + list[1..];
      list[1..]
    else
      assert list == [list[0]] + list[1..];
      assert list[0] !in list[1..];
      [list[0]] + Unlisted(list[1..], x, k - 1)
  }

  /** Sweeps in the same second, as often as there is more to do: they come to an end with
      nothing left that is due. */
  method SweepOut(s: Sweeper, now: nat, waiting: nat -> Id -> bool)
    requires s.Valid() && now != 0
    modifies s
    ensures s.Valid() && s.DueNow(now) == {} && !s.pending
  {
    var c, p := s.Sweep(now, waiting(0));
    var n := 1;
    while s.pending
      invariant s.Valid() && (!s.pending ==> s.DueNow(now) == {})
      decreases s.pending, |s.DueNow(now)|
    {
      c, p := s.Sweep(now, waiting(n));
      n := n + 1;
    }
  }

  // ----- one socket over many sweeps -----

  datatype Visit = Visit(time: nat, waiting: bool)

  function After(life: Life, v: Visit): Life {
    if life.Gone? then Gone else Outcome(CloseIfIdle, life.spared, Shown(v.time), v.waiting)
  }

  function AfterAll(run: seq<Visit>): Life {
    if run == [] then There(0) else After(AfterAll(run[..|run| - 1]), run[|run| - 1])
  }

  ghost predicate InOrder(run: seq<Visit>) {
    forall i, j :: 0 <= i <= j < |run| ==> run[i].time <= run[j].time
  }

  /** How often the socket has been spared. */
  function Spared(run: seq<Visit>): nat {
    if run == [] then 0
    else
      var before := AfterAll(run[..|run| - 1]);
      Spared(run[..|run| - 1]) + if before.There? && AfterAll(run).There? && before != AfterAll(run) then 1 else 0
  }

  /** While the verdict stays, a socket is spared at most once, at the first sweep and only
      with input waiting, and a sweep two seconds later or more closes it, whatever input is
      waiting then. */
  lemma {:induction false} SparedOnce(run: seq<Visit>)
    requires InOrder(run) && run != [] && run[|run| - 1].time - run[0].time < WRAP - 1
    ensures Spared(run) <= 1
    ensures AfterAll(run).There? ==> AfterAll(run).spared == Shown(run[0].time) && Spared(run) == 1
    ensures !run[0].waiting ==> AfterAll(run).Gone?
    ensures run[|run| - 1].time >= run[0].time + 3 ==> AfterAll(run).Gone?
    ensures run[0].time % WRAP != 0 && run[|run| - 1].time >= run[0].time + 2 ==> AfterAll(run).Gone?
  {
    var n := |run| - 1;
    if n == 0 {
      assert run[..0] == [];
      assert AfterAll(run) == After(There(0), run[0]) && Spared(run[..0]) == 0;
    } else {
      var before := run[..n];
      assert before[0] == run[0] && before[n - 1] == run[n - 1];
      SparedOnce(before);
      AgeOf(run[n].time, run[0].time);
    }
  }

  lemma {:induction false} AgeOf(e: nat, s: nat)
    requires s <= e && e - s < WRAP - 1
    ensures (Shown(e) - Shown(s)) % WRAP < 2 ==> e - s < 3 && (s % WRAP != 0 ==> e - s < 2)
  {
    var e1, s1 := if e % WRAP == 0 then e + 1 else e, if s % WRAP == 0 then s + 1 else s;
    AtMultiple(e);
    AtMultiple(s);
    WrapDifference(e1, s1);
  }

  ghost predicate Ascending(times: seq<nat>) {
    forall i, j :: 0 <= i <= j < |times| ==> times[i] <= times[j]
  }

  /** The visits are those sweeps of a run that reached the socket, full sweeps among them. */
  ghost predicate Visiting(times: seq<nat>, full: seq<bool>, visits: seq<Visit>) {
    && |full| == |times| && InOrder(visits)
    && (forall v :: v in visits ==> times != [] && times[0] <= v.time <= times[|times| - 1])
    && (forall j :: 0 <= j < |times| && full[j] ==> visits != [] && visits[0].time <= times[j])
    && (times != [] && full[|times| - 1] ==> visits[|visits| - 1].time == times[|times| - 1])
  }

  lemma {:induction false} VisitMore(times: seq<nat>, full: seq<bool>, visits: seq<Visit>, t: nat, whole: bool, v: Visit)
    requires Ascending(times + [t]) && Visiting(times, full, visits) && v.time == t
    ensures Visiting(times + [t], full + [true], visits + [v])
    ensures Visiting(times + [t], full + [false], visits + [v])
    ensures Visiting(times + [t], full + [false], visits)
  {
    var ts, vs := times + [t], visits + [v];
    assert ts[|times|] == t && vs[|visits|] == v;
    assert times != [] ==> ts[0] == times[0] && times[|times| - 1] == ts[|times| - 1] <= t;
    assert visits != [] ==> vs[0] == visits[0];
    forall w | w in vs ensures ts[0] <= w.time <= t {
    }
    assert visits != [] ==> visits[0] in visits && visits[|visits| - 1] in visits;
    forall i, j | 0 <= i <= j < |vs| ensures vs[i].time <= vs[j].time {
      assert vs[i] in vs;
    }
  }

  /** Sweeps over a list with any other sockets and verdicts on it, any of them overflowing:
      a socket whose verdict stays is spared at most once, the first full sweep three seconds
      after a full sweep has closed it, and one that has had no input waiting is closed by
      the first full sweep. */
  method SweepRun(s: Sweeper, times: seq<nat>, verdicts: nat -> Id -> Action, waiting: nat -> Id -> bool, x: Id)
    returns (ghost visits: seq<Visit>, ghost full: seq<bool>)
    requires s.Valid() && x in s.list && s.sparedAt[x] == 0 && forall i :: verdicts(i)(x).CloseIfIdle?
    requires Ascending(times) && (times != [] ==> times[|times| - 1] - times[0] < WRAP - 1)
    modifies s
    ensures s.Valid() && s.LifeOf(x) == AfterAll(visits) && Visiting(times, full, visits) && Spared(visits) <= 1
    ensures times != [] ==> full[|times| - 1] == !s.pending
    ensures forall j :: 0 <= j < |times| && full[j] && full[|times| - 1] && times[|times| - 1] >= times[j] + 3 ==> x !in s.list
    ensures forall j :: 0 <= j < |times| && full[j] && (forall i :: 0 <= i <= j ==> !waiting(i)(x)) ==> x !in s.list
  {
    visits, full := [], [];
    for i := 0 to |times|
      invariant Idle(visits, full, waiting, x)
      invariant s.Valid() && s.LifeOf(x) == AfterAll(visits) && Visiting(times[..i], full, visits)
      invariant i > 0 ==> full[i - 1] == !s.pending
    {
      assert times[..i + 1] == times[..i] + [times[i]];
      ghost var life := s.LifeOf(x);
      var full1, seen := SweepOnce(s, times[i], verdicts(i), waiting(i), x);
      ghost var v := Visit(times[i], waiting(i)(x));
      VisitMore(times[..i], full, visits, times[i], full1, v);
      AfterMore(visits, v);
      IdleMore(visits, full, waiting, x, v, full1);
      full := full + [full1];
      if seen {
        visits := visits + [v];
      }
    }
    assert times[..|times|] == times;
    SparedAmong(times, full, visits);
  }

  /** Only input that is waiting can save the socket from a full sweep. */
  ghost predicate Idle(visits: seq<Visit>, full: seq<bool>, waiting: nat -> Id -> bool, x: Id) {
    && (visits != [] && !visits[0].waiting ==> AfterAll(visits).Gone?)
    && (visits != [] && visits[0].waiting ==> exists i :: 0 <= i < |full| && waiting(i)(x))
    && forall j :: 0 <= j < |full| && full[j] && Quiet(waiting, x, j) ==> visits != [] && !visits[0].waiting
  }

  ghost predicate Quiet(waiting: nat -> Id -> bool, x: Id, j: nat) {
    forall i :: 0 <= i <= j ==> !waiting(i)(x)
  }

  lemma {:induction false} IdleMore(visits: seq<Visit>, full: seq<bool>, waiting: nat -> Id -> bool, x: Id, v: Visit, whole: bool)
    requires Idle(visits, full, waiting, x) && v.waiting == waiting(|full|)(x)
    ensures Idle(visits + [v], full + [whole], waiting, x)
    ensures !whole ==> Idle(visits, full + [whole], waiting, x)
  {
    AfterMore(visits, v);
    var more := full + [whole];
    assert forall j :: 0 <= j < |full| ==> more[j] == full[j];
    if visits != [] && visits[0].waiting {
      var i :| 0 <= i < |full| && waiting(i)(x);
      assert !Quiet(waiting, x, |full|);
    }
  }

  lemma {:induction false} AfterMore(run: seq<Visit>, v: Visit)
    ensures AfterAll(run + [v]) == After(AfterAll(run), v)
  {
    assert (run + [v])[..|run|] == run;
  }

  /** One sweep, as the socket sees it. */
  method SweepOnce(s: Sweeper, time: nat, verdict: Id -> Action, waiting: Id -> bool, x: Id)
    returns (full: bool, ghost seen: bool)
    requires s.Valid() && verdict(x).CloseIfIdle?
    modifies s
    ensures s.Valid() && full == !s.pending && (full ==> seen)
    ensures s.LifeOf(x) == if seen then After(old(s.LifeOf(x)), Visit(time, waiting(x))) else old(s.LifeOf(x))
  {
    s.Look(verdict);
    AtMultiple(time);
    ghost var life := s.LifeOf(x);
    ghost var closes, pings := s.Sweep(Shown(time), waiting);
    full := !s.pending;
    seen := s.LifeOf(x) == After(life, Visit(time, waiting(x)));
  }

  lemma {:induction false} SparedAmong(times: seq<nat>, full: seq<bool>, visits: seq<Visit>)
    requires Ascending(times) && (times != [] ==> times[|times| - 1] - times[0] < WRAP - 1) && Visiting(times, full, visits)
    ensures Spared(visits) <= 1
    ensures forall j :: 0 <= j < |times| && full[j] && full[|times| - 1] && times[|times| - 1] >= times[j] + 3 ==> AfterAll(visits).Gone?
  {
    if visits != [] {
      assert visits[0] in visits && visits[|visits| - 1] in visits;
      SparedOnce(visits);
    }
  }

  // ----- the verdict on a websocket -----

  /** The stamps the verdict is read from, 0 meaning "not set". */
  datatype Ws = Ws(rxAt: nat, txAt: nat, pingAt: nat, outSince: nat, pingSentAt: nat)

  datatype Limits = Limits(sendIdle: int, closing: int, pong: int, pingIdle: int)

  /** What the sweep sees of the queue. */
  datatype Seen = Seen(closing: bool, outWaiting: bool, pingOut: bool)

  datatype Verdict = Verdict(action: Action, ws: Ws)

  function WsPing(cfg: Limits, w: Ws, now: nat, seen: Seen): Verdict {
    if w.pingAt != 0 then
      if (w.rxAt - w.pingAt) % WRAP < WRAP / 2 then Verdict(Keep, w.(pingAt := 0, pingSentAt := 0))
      else if w.pingSentAt == 0 then Verdict(Keep, if seen.pingOut then w.(pingSentAt := now) else w)
      else Verdict(if Expired(now, w.pingSentAt, cfg.pong) then Close else Keep, w)
    else Verdict(if Expired(now, w.rxAt, cfg.pingIdle) then Ping else Keep, w)
  }

  function WsAction(cfg: Limits, w: Ws, now: nat, seen: Seen): Verdict {
    var u := w.(outSince := if !seen.outWaiting then 0 else if w.outSince == 0 then now else w.outSince);
    if seen.outWaiting && w.outSince != 0 && Expired(now, Later(w.outSince, w.txAt), cfg.sendIdle) then Verdict(Close, u)
    else if seen.closing then
      Verdict(if !seen.outWaiting && Expired(now, Later(w.rxAt, w.txAt), cfg.closing) then Close else Keep, u)
    else WsPing(cfg, u, now, seen)
  }

  /** Queueing the ping. */
  function Pinged(w: Ws, now: nat): Ws {
    w.(pingAt := now, pingSentAt := 0)
  }

  /** Stamps lie in the past, less than 2^31 seconds ago. */
  ghost predicate Past(stamp: nat, now: nat) {
    stamp < WRAP && (now - stamp) % WRAP < WRAP / 2
  }

  /** Once pinged, a websocket is kept by every further sweep of the same second, whatever
      has been written and received in between: the sweep does not find it due again. */
  lemma {:induction false} PingSettles(cfg: Limits, w: Ws, now: nat, seen: Seen, seen': Seen, rx: nat, tx: nat)
    requires 0 < now < WRAP && WsAction(cfg, w, now, seen).action.Ping?
    requires !seen'.closing && rx in {w.rxAt, now} && tx in {w.txAt, now}
    requires Past(w.txAt, now) && Past(w.outSince, now)
    ensures var v := Pinged(WsAction(cfg, w, now, seen).ws, now).(rxAt := rx, txAt := tx);
            WsAction(cfg, v, now, seen').action.Keep?
  {
    var out := if !seen.outWaiting then 0 else if w.outSince == 0 then now else w.outSince;
    assert WsAction(cfg, w, now, seen).ws == w.(outSince := out);
    var v := Pinged(w.(outSince := out), now).(rxAt := rx, txAt := tx);
    LaterNow(w.outSince, now);
    LaterNow(w.txAt, now);
    LaterNow(now, now);
    PingKept(cfg, v, now, seen');
  }

  lemma {:induction false} PingKept(cfg: Limits, v: Ws, now: nat, seen: Seen)
    requires now > 0 && v.pingAt == now && v.pingSentAt == 0 && !seen.closing
    requires !(seen.outWaiting && v.outSince != 0 && Expired(now, Later(v.outSince, v.txAt), cfg.sendIdle))
    ensures WsAction(cfg, v, now, seen).action.Keep?
  {
  }

  /** Nothing is later than now. */
  lemma {:induction false} LaterNow(stamp: nat, now: nat)
    requires Past(stamp, now) && now < WRAP
    ensures Later(stamp, now) == now && Later(now, stamp) == now
  {
    var d := (now - stamp) % WRAP;
    assert (stamp - now) % WRAP == if d == 0 then 0 else WRAP - d;
  }

  /** The answer is due: nothing received since the ping, the ping is out since `pingSentAt`,
      and the socket is closed exactly when the time for the pong has passed. */
  lemma {:induction false} PongDeadline(cfg: Limits, w: Ws, now: nat, seen: Seen, sent: nat, e: nat)
    requires !seen.closing && !seen.outWaiting && w.pingAt != 0 && w.pingSentAt == Shown(sent) && now == Shown(e)
    requires (w.rxAt - w.pingAt) % WRAP >= WRAP / 2 && sent <= e < sent + WRAP - 1 && sent % WRAP != 0 && e % WRAP != 0
    requires cfg.pong > 0
    ensures WsAction(cfg, w, now, seen).action == if e - sent >= cfg.pong then Close else Keep
  {
    ExpiredExact(e, sent, cfg.pong);
  }

  // ----- the verdict in unbounded seconds -----

  /** The stamp of the second `t`, which is not one the clock has no reading for. */
  ghost predicate Reads(stamp: nat, t: int) {
    t % WRAP != 0 && stamp == t % WRAP
  }

  /** The same, less than 2^31 seconds before `e`. */
  ghost predicate Since(stamp: nat, t: int, e: int) {
    Reads(stamp, t) && e - 0x8000_0000 < t <= e
  }

  function Last(a: int, b: int): int {
    if a >= b then a else b
  }

  lemma {:induction false} ExpiredSince(now: nat, e: int, stamp: nat, t: int, limit: int)
    requires Reads(now, e) && Since(stamp, t, e)
    ensures Expired(now, stamp, limit) <==> limit > 0 && e - t >= limit
  {
    if limit > 0 {
      ExpiredExact(e, t, limit);
    }
  }

  lemma {:induction false} LaterSince(e: int, a: nat, s: int, b: nat, t: int)
    requires Since(a, s, e) && Since(b, t, e)
    ensures Since(Later(a, b), Last(s, t), e)
  {
    LaterExact(s, t);
  }

  /** The verdict on a websocket whose stamps are those of the seconds `rx`, `tx` and so on:
      closed when its client has taken nothing for too long, when it should have closed or
      when the pong has not come; pinged when nothing has come for too long. */
  lemma {:induction false} WsVerdict(cfg: Limits, w: Ws, now: nat, seen: Seen, e: int, rx: int, tx: int, out: int, ping: int, sent: int)
    requires Reads(now, e) && Since(w.rxAt, rx, e) && Since(w.txAt, tx, e)
    requires (w.outSince == 0 || Since(w.outSince, out, e)) && (w.pingAt == 0 || Since(w.pingAt, ping, e))
    requires w.pingSentAt == 0 || Since(w.pingSentAt, sent, e)
    ensures var v := WsAction(cfg, w, now, seen);
            var stuck := seen.outWaiting && w.outSince != 0 && 0 < cfg.sendIdle <= e - Last(out, tx);
            var overdue := !seen.outWaiting && 0 < cfg.closing <= e - Last(rx, tx);
            var waits := w.pingAt != 0 && rx < ping && w.pingSentAt != 0;
            && (v.action.Close? <==> stuck || if seen.closing then overdue else waits && 0 < cfg.pong <= e - sent)
            && (v.action.Ping? <==> !stuck && !seen.closing && w.pingAt == 0 && 0 < cfg.pingIdle <= e - rx)
            && !v.action.CloseIfIdle?
            && v.ws.outSince == (if !seen.outWaiting then 0 else if w.outSince != 0 then w.outSince else now)
            && v.ws.pingAt == (if !stuck && !seen.closing && w.pingAt != 0 && rx >= ping then 0 else w.pingAt)
            && (!stuck && !seen.closing && w.pingAt != 0 ==>
                  v.ws.pingSentAt == if rx >= ping then 0 else if w.pingSentAt == 0 && seen.pingOut then now else w.pingSentAt)
  {
    if w.outSince != 0 {
      LaterSince(e, w.outSince, out, w.txAt, tx);
      ExpiredSince(now, e, Later(w.outSince, w.txAt), Last(out, tx), cfg.sendIdle);
    }
    LaterSince(e, w.rxAt, rx, w.txAt, tx);
    ExpiredSince(now, e, Later(w.rxAt, w.txAt), Last(rx, tx), cfg.closing);
    ExpiredSince(now, e, w.rxAt, rx, cfg.pingIdle);
    if w.pingSentAt != 0 {
      ExpiredSince(now, e, w.pingSentAt, sent, cfg.pong);
    }
    if w.pingAt != 0 {
      WrapDifference(rx, ping);
    }
  }
}
