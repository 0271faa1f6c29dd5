/** The list of all sockets, with the number of its clients, the cursor of the scan for a
    connection to close, and the limit on their total. */
module SockList {
  import opened Bytes
  import opened LinkedLists
  import A = ConnAdmission

  const WINDOW: nat := 64
  const MAX_TRIES: nat := 8

  /** How many of the sockets are not listeners. */
  ghost function Clients(s: seq<Id>, listener: Id -> bool): nat {
    if s == [] then 0 else (if listener(s[0]) then 0 else 1) + Clients(s[1..], listener)
  }

  lemma {:induction false} ClientsConcat(a: seq<Id>, b: seq<Id>, listener: Id -> bool)
    ensures Clients(a + b, listener) == Clients(a, listener) + Clients(b, listener)
  {
    if a == [] {
      assert a + b == b;
    } else {
      ClientsConcat(a[1..], b, listener);
      assert (a + b)[1..] == a[1..] + b;
    }
  }

  lemma {:induction false} ClientsOne(x: Id, listener: Id -> bool)
    ensures Clients([x], listener) == if listener(x) then 0 else 1
  {
    assert [x][1..] == [];
  }

  lemma {:induction false} ClientsWithout(s: seq<Id>, k: nat, listener: Id -> bool)
    requires k < |s|
    ensures Clients(s, listener) == Clients(Without(s, k), listener) + if listener(s[k]) then 0 else 1
  {
    assert s == s[..k] + ([s[k]] + s[k + 1..]);
    ClientsConcat(s[..k], [s[k]] + s[k + 1..], listener);
    ClientsConcat([s[k]], s[k + 1..], listener);
    ClientsOne(s[k], listener);
    ClientsConcat(s[..k], s[k + 1..], listener);
  }

  class Sockets {
    const listener: Id -> bool
    var prev: Field
    var next: Field
    var inList: set<Id>
    var head: Option<Id>
    var tail: Option<Id>
    var clients: nat
    var cursor: Option<Id>
    var lastIo: map<Id, nat>
    var ioSeq: nat
    ghost var list: seq<Id>

    ghost predicate Valid()
      reads this
    {
      && Linked(prev, next, head, list) && tail == At(list, |list| - 1)
      && (forall x :: x in inList <==> x in list)
      && clients == Clients(list, listener)
      && (cursor.Some? ==> cursor.value in list)
    }

    constructor (listener: Id -> bool)
      ensures Valid() && list == [] && this.listener == listener
    {
      this.listener := listener;
      prev, next, inList, head, tail, clients, cursor, list := map[], map[], {}, None, None, 0, None, [];
      lastIo, ioSeq := map[], 0;
    }

    /** A socket joins the list at its end, if it is not there. */
    method Add(x: Id)
      requires Valid()
      modifies `prev, `next, `inList, `head, `tail, `clients, `cursor, `list
      ensures Valid() && cursor == old(cursor)
      ensures list == if x in old(list) then old(list) else old(list) + [x]
      ensures clients == old(clients) + if x in old(list) || listener(x) then 0 else 1
    {
      if x !in inList {
        LinkAppend(prev, next, head, list, x);
        ClientsConcat(list, [x], listener);
        ClientsOne(x, listener);
        prev := prev[x := tail];
        next := next[x := None];
        if tail.Some? {
          next := next[tail.value := Some(x)];
        } else {
          head := Some(x);
        }
        tail := Some(x);
        inList := inList + {x};
        if !listener(x) {
          clients := clients + 1;
        }
        list := list + [x];
      }
    }

    /** The pointers of the list without its element `k`. */
    method Cut(x: Id, ghost k: nat)
      requires Linked(prev, next, head, list) && tail == At(list, |list| - 1) && k < |list| && list[k] == x
      modifies `prev, `next, `head, `tail, `list
      ensures Linked(prev, next, head, list) && tail == At(list, |list| - 1) && list == Without(old(list), k)
    {
      LinkCut(prev, next, head, list, k);
      assert prev[x] == At(list, k - 1) && next[x] == At(list, k + 1);
      var p, n := prev[x], next[x];
      if p.Some? {
        next := next[p.value := n];
      } else {
        head := n;
      }
      if n.Some? {
        prev := prev[n.value := p];
      } else {
        tail := p;
      }
      prev, next := prev[x := None], next[x := None];
      list := Without(list, k);
    }

    /** A socket leaves the list, if it is there; the cursor moves off it. */
    method Unlink(x: Id)
      requires Valid()
      modifies `prev, `next, `inList, `head, `tail, `clients, `cursor, `list
      ensures Valid() && x !in list
      ensures forall y :: y in list <==> y in old(list) && y != x
      ensures clients == old(clients) - if x in old(list) && !listener(x) then 1 else 0
    {
      if x in inList {
        ghost var k :| 0 <= k < |list| && list[k] == x;
        ClientsWithout(list, k, listener);
        assert next[x] == At(list, k + 1);
        ghost var was := list;
        if cursor == Some(x) {
          cursor := next[x];
        }
        if !listener(x) {
          clients := clients - 1;
        }
        Cut(x, k);
        inList := inList - {x};
        forall y ensures y in list <==> y in was && y != x {
          WithoutHas(was, k, y);
        }
      }
    }
  }

  // ----- the scan for a connection to close -----

  /** What is `j` places behind `start`, going round the list. */
  ghost function Ring(s: seq<Id>, start: nat, j: nat): Id
    requires s != []
  {
    s[(start + j) % |s|]
  }

  /** A connection that may be closed for the total limit. */
  datatype Rules = Rules(counts: Id -> bool, evictable: Id -> bool, lastIo: map<Id, nat>)

  /** `best` is the one with the oldest transfer among the evictable connections passed. */
  ghost predicate BestOf(s: seq<Id>, start: nat, steps: nat, r: Rules, best: Option<Id>) {
    s != [] ==>
      && (best.None? ==> forall j :: 0 <= j < steps && r.counts(Ring(s, start, j)) ==> !r.evictable(Ring(s, start, j)))
      && (best.Some? ==>
            && best.value in s && r.counts(best.value) && r.evictable(best.value)
            && forall j :: 0 <= j < steps && r.counts(Ring(s, start, j)) && r.evictable(Ring(s, start, j))
                 ==> A.Io(r.lastIo, best.value) <= A.Io(r.lastIo, Ring(s, start, j)))
  }

  lemma {:induction false} RingNext(s: seq<Id>, start: nat, j: nat)
    requires s != []
    ensures var i := (start + j) % |s|;
            Ring(s, start, j + 1) == if i + 1 < |s| then s[i + 1] else s[0]
  {
    NextRemainder(start + j, |s|);
  }

  lemma {:induction false} NextRemainder(a: nat, n: nat)
    requires n > 0
    ensures (a + 1) % n == if a % n + 1 < n then a % n + 1 else 0
  {
    var q, r := a / n, a % n;
    assert a + 1 == n * q + (r + 1);
    if r + 1 == n {
      assert a + 1 == n * (q + 1) + 0;
      Remainder(a + 1, n, q + 1, 0);
    } else {
      Remainder(a + 1, n, q, r + 1);
    }
  }

  lemma {:induction false} Multiple(n: int, d: int)
    requires n > 0
    ensures (d >= 1 ==> n * d >= n) && (d <= -1 ==> n * d <= -n)
  {
  }

  lemma {:induction false} Remainder(a: nat, n: nat, q: nat, r: nat)
    requires n > 0 && r < n && a == n * q + r
    ensures a % n == r
  {
    var d := a / n - q;
    assert a == n * (a / n) + a % n;
    assert n * d == r - a % n;
    Multiple(n, d);
  }

  /** One more socket is passed. */
  function Better(r: Rules, best: Option<Id>, x: Id): Option<Id> {
    if r.counts(x) && r.evictable(x) && (best.None? || A.Io(r.lastIo, x) < A.Io(r.lastIo, best.value)) then Some(x) else best
  }

  lemma {:induction false} BestNext(s: seq<Id>, start: nat, steps: nat, r: Rules, best: Option<Id>)
    requires s != [] && BestOf(s, start, steps, r, best)
    ensures BestOf(s, start, steps + 1, r, Better(r, best, Ring(s, start, steps)))
  {
  }

  /** A victim is among the sockets passed. */
  ghost predicate Met(s: seq<Id>, start: nat, steps: nat, r: Rules)
    requires s != []
  {
    exists j :: 0 <= j < steps && Eligible(s, start, j, r)
  }

  ghost predicate Eligible(s: seq<Id>, start: nat, j: nat, r: Rules)
    requires s != []
  {
    r.counts(Ring(s, start, j)) && r.evictable(Ring(s, start, j))
  }

  /** The scan has gone far enough: two windows, all it may pass, or one window with a victim. */
  ghost predicate FarEnough(s: seq<Id>, start: nat, steps: nat, most: nat, r: Rules)
    requires s != []
  {
    steps >= most || Looked(s, start, steps, r) >= 128 || (Looked(s, start, steps, r) >= 64 && Met(s, start, steps, r))
  }

  /** How many of the sockets passed were connections to look at. */
  ghost function Looked(s: seq<Id>, start: nat, steps: nat, r: Rules): nat
    requires s != []
  {
    if steps == 0 then 0 else Looked(s, start, steps - 1, r) + if r.counts(Ring(s, start, steps - 1)) then 1 else 0
  }

  /** The scan ends where it has gone far enough for the first time. */
  ghost predicate Ends(s: seq<Id>, start: nat, steps: nat, most: nat, r: Rules)
    requires s != []
  {
    FarEnough(s, start, steps, most, r) && forall j :: 0 <= j < steps ==> !FarEnough(s, start, j, most, r)
  }

  /** How the scan ended: where it began, how many sockets it passed, and how many of them
      were connections it looked at. */
  datatype Scan = Scan(start: nat, steps: nat, looked: nat)

  lemma {:induction false} MetNext(s: seq<Id>, start: nat, steps: nat, r: Rules)
    requires s != []
    ensures Met(s, start, steps + 1, r) <==> Met(s, start, steps, r) || Eligible(s, start, steps, r)
  {
    if j :| 0 <= j < steps && Eligible(s, start, j, r) {
      assert 0 <= j < steps + 1;
    }
    if Eligible(s, start, steps, r) {
      assert 0 <= steps < steps + 1;
    }
  }

  /** The socket behind `x`, going round. */
  method Successor(next: Field, head: Option<Id>, x: Id, ghost list: seq<Id>, ghost start: nat, ghost steps: nat)
      returns (y: Option<Id>)
    requires Chained(next, head, list) && list != [] && x == Ring(list, start, steps)
    ensures y == Some(Ring(list, start, steps + 1))
  {
    ghost var i := (start + steps) % |list|;
    RingNext(list, start, steps);
    assert list[i] in next && next[list[i]] == At(list, i + 1);
    y := if next[x].Some? then next[x] else head;
  }

  /** Go round the list from `sock`, two windows at most, or one with a victim. */
  method GoRound(next: Field, head: Option<Id>, sock: Option<Id>, most: nat, r: Rules, ghost list: seq<Id>, ghost start: nat)
      returns (best: Option<Id>, sock': Option<Id>, ghost scan: Scan)
    requires Chained(next, head, list)
    requires if list == [] then sock.None? else sock == Some(Ring(list, start, 0))
    ensures BestOf(list, start, scan.steps, r, best) && scan.start == start && scan.looked <= 2 * WINDOW
    ensures if list == [] then sock'.None? && best.None? else sock' == Some(Ring(list, start, scan.steps))
    ensures scan.steps <= most && (list != [] ==> scan.looked == Looked(list, start, scan.steps, r))
    ensures list != [] ==> Ends(list, start, scan.steps, most, r)
  {
    var looked, steps, done := 0, 0, false;
    best, sock' := None, sock;
    while !done && sock'.Some? && looked < 2 * WINDOW && steps < most
      invariant if list == [] then sock'.None? && best.None? else sock' == Some(Ring(list, start, steps))
      invariant looked <= 2 * WINDOW && steps <= most && (done ==> best.Some? && looked >= WINDOW)
      invariant list != [] ==> looked == Looked(list, start, steps, r)
      invariant list != [] ==> (best.Some? <==> Met(list, start, steps, r))
      invariant list != [] ==> (done <==> looked >= WINDOW && best.Some?)
      invariant list != [] ==> forall j :: 0 <= j < steps ==> !FarEnough(list, start, j, most, r)
      invariant BestOf(list, start, steps, r, best)
      decreases most - steps
    {
      BestNext(list, start, steps, r, best);
      MetNext(list, start, steps, r);
      var x := sock'.value;
      sock' := Successor(next, head, x, list, start, steps);
      steps := steps + 1;
      best := Better(r, best, x);
      if r.counts(x) {
        looked := looked + 1;
        done := best.Some? && looked >= WINDOW;
      }
    }
    scan := Scan(start, steps, looked);
  }

  /** What a scan has been through before it ended, with a victim or without. */
  ghost predicate Scanned(list: seq<Id>, clients: nat, r: Rules, best: Option<Id>, scan: Scan) {
    && BestOf(list, scan.start, scan.steps, r, best) && scan.looked <= 128 && scan.steps <= clients + 8
    && (list != [] ==>
          && scan.looked == Looked(list, scan.start, scan.steps, r)
          && Ends(list, scan.start, scan.steps, clients + 8, r))
  }

  /** The next victim for the total limit. The cursor goes round the list and is always on
      it; when there is no victim, two windows have been looked at or as many sockets
      passed as there are clients, and eight more. */
  method PickGlobalVictim(s: Sockets, r: Rules) returns (best: Option<Id>, ghost scan: Scan)
    requires s.Valid()
    modifies s`cursor
    ensures s.Valid() && BestOf(s.list, scan.start, scan.steps, r, best)
    ensures best.Some? ==> best.value in s.list && r.counts(best.value) && r.evictable(best.value)
    ensures Scanned(s.list, s.clients, r, best, scan)
    ensures s.list != [] ==> s.cursor == Some(Ring(s.list, scan.start, scan.steps))
    ensures s.list != [] && old(s.cursor).Some? ==> old(s.cursor) == Some(Ring(s.list, scan.start, 0))
  {
    var sock := if s.cursor.Some? then s.cursor else s.head;
    ghost var start: nat := 0;
    if s.list != [] {
      start :| 0 <= start < |s.list| && s.list[start] == sock.value;
      Remainder(start, |s.list|, 0, start);
    }
    best, sock, scan := GoRound(s.next, s.head, sock, s.clients + 8, r, s.list, start);
    s.cursor := sock;
  }

  /** Once it has gone all the way round, the scan has passed everybody. */
  lemma {:induction false} WholeRound(s: seq<Id>, start: nat, steps: nat, r: Rules, x: Id)
    requires x in s && steps >= |s| && BestOf(s, start, steps, r, None) && r.counts(x)
    ensures !r.evictable(x)
  {
    var i :| 0 <= i < |s| && s[i] == x;
    var j := (i - start) % |s|;
    RoundIndex(i, start, |s|);
    assert Ring(s, start, j) == x;
  }

  lemma {:induction false} RoundIndex(i: nat, start: nat, n: nat)
    requires i < n
    ensures 0 <= (i - start) % n < n && (start + (i - start) % n) % n == i
  {
    var j := (i - start) % n;
    var q := (i - start) / n;
    assert i - start == n * q + j;
    assert start + j == n * (-q) + i;
    if q <= 0 {
      Remainder(start + j, n, -q, i);
    } else {
      Multiple(n, q);
    }
  }

  // ----- the limit on the total -----

  /** Close a connection, and with it the backend it is the client of. */
  method Close(s: Sockets, x: Id, backend: Option<Id>)
    requires s.Valid() && x in s.list && !s.listener(x)
    modifies s`prev, s`next, s`inList, s`head, s`tail, s`clients, s`cursor, s`list
    ensures s.Valid() && s.clients < old(s.clients) <= s.clients + 2
    ensures forall y :: y in s.list <==> y in old(s.list) && y != x && Some(y) != backend
  {
    s.Unlink(x);
    if backend.Some? {
      s.Unlink(backend.value);
    }
  }

  /** What a call knows about the sockets: which count, which may be closed, whose client
      a backend belongs to, and the answers of the probes for waiting input. */
  datatype View = View(counts: Id -> bool, evictable: Id -> bool, backend: Id -> Option<Id>, probes: nat -> bool)

  /** One look for the total limit: what the list was then, how it was scanned, which
      connection was found, and whether it had input waiting; without, it was closed. */
  datatype Turn = Turn(list: seq<Id>, clients: nat, lastIo: map<Id, nat>, ioSeq: nat, scan: Scan, victim: Id, waiting: bool)

  /** What a look leaves behind. */
  ghost predicate Left(t: Turn, v: View, list: seq<Id>, lastIo: map<Id, nat>, ioSeq: nat) {
    if t.waiting then list == t.list && lastIo == t.lastIo[t.victim := t.ioSeq + 1] && ioSeq == t.ioSeq + 1
    else lastIo == t.lastIo && ioSeq == t.ioSeq
         && forall y :: y in list <==> y in t.list && y != t.victim && Some(y) != v.backend(t.victim)
  }

  /** The looks lead from the first state of the list to the last, each with the total at the
      limit or above, and each at the best victim that its scan passed. */
  ghost predicate Told(log: seq<Turn>, limit: int, v: View, list0: seq<Id>, lastIo0: map<Id, nat>, ioSeq0: nat,
                       list: seq<Id>, lastIo: map<Id, nat>, ioSeq: nat)
  {
    if log == [] then list == list0 && lastIo == lastIo0 && ioSeq == ioSeq0
    else
      var n := |log| - 1;
      var t := log[n];
      && Told(log[..n], limit, v, list0, lastIo0, ioSeq0, t.list, t.lastIo, t.ioSeq)
      && limit <= t.clients && Scanned(t.list, t.clients, Rules(v.counts, v.evictable, t.lastIo), Some(t.victim), t.scan)
      && t.waiting == v.probes(n) && Left(t, v, list, lastIo, ioSeq)
  }

  /** Nobody comes in by the looks, and only evictable connections without input waiting are
      closed, with the backend of each. */
  lemma {:induction false} ToldCloses(log: seq<Turn>, limit: int, v: View, list0: seq<Id>, lastIo0: map<Id, nat>, ioSeq0: nat,
                                      list: seq<Id>, lastIo: map<Id, nat>, ioSeq: nat)
    requires Told(log, limit, v, list0, lastIo0, ioSeq0, list, lastIo, ioSeq)
    ensures forall y :: y in list ==> y in list0
    ensures forall y :: y in list0 && y !in list ==>
              exists i :: 0 <= i < |log| && ClosedBy(log, i, v, y)
    decreases |log|
  {
    if log != [] {
      var n := |log| - 1;
      var t := log[n];
      ToldCloses(log[..n], limit, v, list0, lastIo0, ioSeq0, t.list, t.lastIo, t.ioSeq);
      forall y | y in list0 && y !in list ensures exists i :: 0 <= i < |log| && ClosedBy(log, i, v, y) {
        if y in t.list {
          assert ClosedBy(log, n, v, y);
        } else {
          var i :| 0 <= i < n && ClosedBy(log[..n], i, v, y);
          assert ClosedBy(log, i, v, y);
        }
      }
    }
  }

  /** The look `i` has closed `y`: its victim, or the backend of its victim. */
  ghost predicate ClosedBy(log: seq<Turn>, i: nat, v: View, y: Id)
    requires i < |log|
  {
    var x := log[i].victim;
    (y == x || Some(y) == v.backend(x)) && v.counts(x) && v.evictable(x) && !log[i].waiting && !v.probes(i)
  }

  /** One try: close the longest idle connection found, unless it has input waiting. */
  method Try(s: Sockets, v: View, n: nat) returns (found: bool, ghost turn: Turn)
    requires s.Valid() && forall x :: v.counts(x) ==> !s.listener(x)
    modifies s`prev, s`next, s`inList, s`head, s`tail, s`clients, s`cursor, s`list, s`lastIo, s`ioSeq
    ensures s.Valid() && s.clients <= old(s.clients) <= s.clients + 2
    ensures found ==> (s.clients == old(s.clients) <==> v.probes(n))
    ensures turn.list == old(s.list) && turn.clients == old(s.clients) && turn.lastIo == old(s.lastIo) && turn.ioSeq == old(s.ioSeq)
    ensures Scanned(turn.list, turn.clients, Rules(v.counts, v.evictable, turn.lastIo), if found then Some(turn.victim) else None, turn.scan)
    ensures turn.waiting == v.probes(n)
    ensures if found then Left(turn, v, s.list, s.lastIo, s.ioSeq)
            else s.list == old(s.list) && s.lastIo == old(s.lastIo) && s.ioSeq == old(s.ioSeq)
  {
    var best;
    ghost var scan;
    best, scan := PickGlobalVictim(s, Rules(v.counts, v.evictable, s.lastIo));
    found := best.Some?;
    turn := Turn(s.list, s.clients, s.lastIo, s.ioSeq, scan, if found then best.value else 0, v.probes(n));
    if found {
      if v.probes(n) {
        s.ioSeq := s.ioSeq + 1;
        s.lastIo := s.lastIo[best.value := s.ioSeq];
      } else {
        Close(s, best.value, v.backend(best.value));
      }
    }
  }

  lemma {:induction false} ToldMore(log: seq<Turn>, limit: int, v: View, list0: seq<Id>, lastIo0: map<Id, nat>, ioSeq0: nat,
                                    t: Turn, list: seq<Id>, lastIo: map<Id, nat>, ioSeq: nat)
    requires Told(log, limit, v, list0, lastIo0, ioSeq0, t.list, t.lastIo, t.ioSeq)
    requires limit <= t.clients && Scanned(t.list, t.clients, Rules(v.counts, v.evictable, t.lastIo), Some(t.victim), t.scan)
    requires t.waiting == v.probes(|log|) && Left(t, v, list, lastIo, ioSeq)
    ensures Told(log + [t], limit, v, list0, lastIo0, ioSeq0, list, lastIo, ioSeq)
  {
    var more := log + [t];
    assert more[..|more| - 1] == log && more[|more| - 1] == t;
  }

  /** A scan over the list that found nobody. */
  ghost predicate NoneFound(list: seq<Id>, clients: nat, r: Rules) {
    exists scan :: Scanned(list, clients, r, None, scan)
  }

  /** Make room below the total limit. There is room if the total is below it, or if the
      total comes down even with one more. */
  method EnsureTotalRoom(s: Sockets, limit: int, v: View) returns (ok: bool, ghost log: seq<Turn>)
    requires s.Valid() && forall x :: v.counts(x) ==> !s.listener(x)
    modifies s`prev, s`next, s`inList, s`head, s`tail, s`clients, s`cursor, s`list, s`lastIo, s`ioSeq
    ensures s.Valid() && s.clients <= old(s.clients) <= s.clients + 16
    ensures ok <==> limit <= 0 || old(s.clients) < limit || s.clients < limit || s.clients + 1 < old(s.clients)
    ensures |log| <= 8 && Told(log, limit, v, old(s.list), old(s.lastIo), old(s.ioSeq), s.list, s.lastIo, s.ioSeq)
    ensures limit <= 0 ==> log == []
    ensures limit > 0 && s.clients >= limit ==>
              |log| == 8 || NoneFound(s.list, s.clients, Rules(v.counts, v.evictable, s.lastIo))
  {
    var before := s.clients;
    log := [];
    if limit <= 0 || before < limit {
      return true, [];
    }
    var tries, found := 0, true;
    while found && tries < MAX_TRIES && s.clients >= limit
      invariant tries <= MAX_TRIES && s.Valid() && s.clients <= before <= s.clients + 2 * tries
      invariant found ==> |log| == tries
      invariant |log| <= tries && Told(log, limit, v, old(s.list), old(s.lastIo), old(s.ioSeq), s.list, s.lastIo, s.ioSeq)
      invariant !found ==> NoneFound(s.list, s.clients, Rules(v.counts, v.evictable, s.lastIo))
      decreases MAX_TRIES - tries, found
    {
      ghost var turn;
      found, turn := Try(s, v, tries);
      if found {
        ToldMore(log, limit, v, old(s.list), old(s.lastIo), old(s.ioSeq), turn, s.list, s.lastIo, s.ioSeq);
        log := log + [turn];
      }
      tries := tries + 1;
    }
    ok := s.clients < limit || s.clients + 1 < before;
  }

  /** One more connection or backend, if there is room for it. Without room nobody comes in. */
  method Admit(s: Sockets, x: Id, limit: int, v: View) returns (ok: bool, ghost log: seq<Turn>, ghost room: seq<Id>)
    requires s.Valid() && forall y :: v.counts(y) ==> !s.listener(y)
    modifies s`prev, s`next, s`inList, s`head, s`tail, s`clients, s`cursor, s`list, s`lastIo, s`ioSeq
    ensures s.Valid() && Told(log, limit, v, old(s.list), old(s.lastIo), old(s.ioSeq), room, s.lastIo, s.ioSeq)
    ensures s.list == if ok && x !in room then room + [x] else room
    ensures limit > 0 ==> Passes(limit, old(s.clients), ok, s.clients)
    ensures limit <= 0 ==> ok && room == old(s.list)
  {
    ok, log := EnsureTotalRoom(s, limit, v);
    room := s.list;
    if ok {
      s.Add(x);
    }
  }

  /** What an admission may do to the total: not above the limit, and where it was above
      already, a new connection leaves it strictly smaller. */
  ghost predicate Passes(limit: int, before: nat, admitted: bool, after: nat) {
    if before > limit && admitted then after < before else after <= limit || after <= before
  }

  /** Connections also go by themselves. */
  datatype Change = Change(admitted: bool, total: nat, list: seq<Id>)

  ghost predicate AllowedRun(limit: int, start: nat, run: seq<Change>) {
    forall i :: 0 <= i < |run| ==> Passes(limit, Before(start, run, i), run[i].admitted, run[i].total)
  }

  /** The total before the change `i`. */
  ghost function Before(start: nat, run: seq<Change>, i: nat): nat
    requires i <= |run|
  {
    if i == 0 then start else run[i - 1].total
  }

  /** Over every run the total stays below the larger of the limit and where it began. */
  lemma {:induction false} TotalBounded(limit: int, start: nat, run: seq<Change>, i: nat)
    requires AllowedRun(limit, start, run) && i < |run|
    ensures run[i].total <= limit || run[i].total <= start
  {
    assert Passes(limit, Before(start, run, i), run[i].admitted, run[i].total);
    if i > 0 {
      TotalBounded(limit, start, run, i - 1);
    }
  }

  lemma {:induction false} AllowedMore(limit: int, start: nat, run: seq<Change>, c: Change)
    requires AllowedRun(limit, start, run) && Passes(limit, Before(start, run, |run|), c.admitted, c.total)
    ensures AllowedRun(limit, start, run + [c])
  {
    var more := run + [c];
    forall i | 0 <= i < |more| ensures Passes(limit, Before(start, more, i), more[i].admitted, more[i].total) {
      assert Before(start, more, i) == Before(start, run, i);
    }
  }

  /** A connection or backend asks to come in, or a socket goes. */
  datatype Event = Arrive(x: Id, v: View) | Leave(x: Id)

  /** What an event does to the list: only an admitted socket is new in it, and one that has
      left is gone. */
  ghost predicate Tied(e: Event, list: seq<Id>, c: Change, listener: Id -> bool) {
    && c.total == Clients(c.list, listener)
    && match e
       case Arrive(x, _) => (c.admitted ==> x in c.list) && forall y :: y in c.list ==> y in list || (c.admitted && y == x)
       case Leave(x) => !c.admitted && forall y :: y in c.list <==> y in list && y != x
  }

  /** The list before the change `i`. */
  ghost function ListBefore(list: seq<Id>, run: seq<Change>, i: nat): seq<Id>
    requires i <= |run|
  {
    if i == 0 then list else run[i - 1].list
  }

  ghost predicate TiedAt(events: seq<Event>, list: seq<Id>, run: seq<Change>, i: nat, listener: Id -> bool)
    requires i < |run| <= |events|
  {
    Tied(events[i], ListBefore(list, run, i), run[i], listener)
  }

  ghost predicate AllTied(events: seq<Event>, list: seq<Id>, run: seq<Change>, listener: Id -> bool) {
    |run| <= |events| && forall i :: 0 <= i < |run| ==> TiedAt(events, list, run, i, listener)
  }

  lemma {:induction false} TiedMore(events: seq<Event>, list: seq<Id>, run: seq<Change>, c: Change, listener: Id -> bool)
    requires AllTied(events, list, run, listener) && |run| < |events|
    requires Tied(events[|run|], ListBefore(list, run, |run|), c, listener)
    ensures AllTied(events, list, run + [c], listener)
  {
    var more := run + [c];
    forall i | 0 <= i < |more| ensures TiedAt(events, list, more, i, listener) {
      assert ListBefore(list, more, i) == ListBefore(list, run, i);
      if i < |run| {
        assert TiedAt(events, list, run, i, listener);
        assert more[i] == run[i];
      } else {
        assert more[i] == c;
      }
    }
  }

  /** Any run of admissions and closings on the list: its totals are an allowed run, and the
      flags say who came in. */
  method Serve(s: Sockets, limit: int, events: seq<Event>) returns (ghost run: seq<Change>)
    requires s.Valid() && limit > 0
    requires forall e :: e in events && e.Arrive? ==> forall y :: e.v.counts(y) ==> !s.listener(y)
    modifies s
    ensures s.Valid() && |run| == |events| && AllowedRun(limit, old(s.clients), run)
    ensures AllTied(events, old(s.list), run, s.listener)
    ensures s.clients == Before(old(s.clients), run, |run|) && s.list == ListBefore(old(s.list), run, |run|)
    ensures s.clients <= limit || s.clients <= old(s.clients)
    ensures forall i :: 0 <= i < |run| ==> run[i].total <= limit || run[i].total <= old(s.clients)
  {
    run := [];
    for i := 0 to |events|
      invariant s.Valid() && |run| == i && AllowedRun(limit, old(s.clients), run)
      invariant AllTied(events, old(s.list), run, s.listener)
      invariant s.clients == Before(old(s.clients), run, |run|) && s.list == ListBefore(old(s.list), run, |run|)
    {
      var admitted := Happen(s, limit, events[i]);
      ghost var c := Change(admitted, s.clients, s.list);
      AllowedMore(limit, old(s.clients), run, c);
      TiedMore(events, old(s.list), run, c, s.listener);
      run := run + [c];
    }
    forall i | 0 <= i < |run| ensures run[i].total <= limit || run[i].total <= old(s.clients) {
      TotalBounded(limit, old(s.clients), run, i);
    }
  }

  method Happen(s: Sockets, limit: int, e: Event) returns (admitted: bool)
    requires s.Valid() && limit > 0
    requires e.Arrive? ==> forall y :: e.v.counts(y) ==> !s.listener(y)
    modifies s
    ensures s.Valid() && Passes(limit, old(s.clients), admitted, s.clients)
    ensures Tied(e, old(s.list), Change(admitted, s.clients, s.list), s.listener)
  {
    match e
    case Arrive(x, v) =>
      ghost var log, room;
      admitted, log, room := Admit(s, x, limit, v);
      ToldCloses(log, limit, v, old(s.list), old(s.lastIo), old(s.ioSeq), room, s.lastIo, s.ioSeq);
    case Leave(x) =>
      s.Unlink(x);
      admitted := false;
  }

  /** And while it is above the limit, every admission brings it down. */
  lemma {:induction false} TotalComesDown(limit: int, start: nat, run: seq<Change>, i: nat, j: nat)
    requires AllowedRun(limit, start, run) && i < j < |run| && limit > 0
    requires forall k :: i <= k <= j ==> run[k].total > limit
    ensures run[j].total <= run[i].total - Admitted(run, i + 1, j + 1)
  {
    assert Before(start, run, j) == run[j - 1].total;
    if j > i + 1 {
      TotalComesDown(limit, start, run, i, j - 1);
    }
    AdmittedLast(run, i + 1, j);
  }

  /** How many of the changes from `a` to `b` were admissions. */
  ghost function Admitted(run: seq<Change>, a: nat, b: nat): int
    requires a <= b <= |run|
  {
    if a == b then 0 else Admitted(run, a, b - 1) + if run[b - 1].admitted then 1 else 0
  }

  lemma {:induction false} AdmittedLast(run: seq<Change>, a: nat, b: nat)
    requires a <= b < |run|
    ensures Admitted(run, a, b + 1) == Admitted(run, a, b) + if run[b].admitted then 1 else 0
  {
  }
}
