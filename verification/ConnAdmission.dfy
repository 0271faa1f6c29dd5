/** The limit on connections per address: to admit a new one, connections of the same
    address the server only waits on are closed, the oldest transfer first. */
module ConnAdmission {
  import opened Bytes
  import opened Sequences
  import opened LinkedLists
  import opened ConnGroups

  /** The number of the last transfer of a connection; 0 before the first. */
  function Io(lastIo: map<Id, nat>, x: Id): nat {
    if x in lastIo then lastIo[x] else 0
  }

  /** `v` is an evictable connection of the list, with the oldest transfer. */
  ghost predicate Oldest(list: seq<Id>, lastIo: map<Id, nat>, evictable: Id -> bool, v: Id) {
    v in list && evictable(v) && forall y :: y in list && evictable(y) ==> Io(lastIo, v) <= Io(lastIo, y)
  }

  /** The evictable connection of a group with the oldest last transfer. */
  method PickVictim(t: Table, g: Id, evictable: Id -> bool) returns (best: Option<Id>)
    requires t.Valid() && g in t.key
    ensures best.None? ==> forall y :: y in t.roster[g] ==> !evictable(y)
    ensures best.Some? ==> Oldest(t.roster[g], t.lastIo, evictable, best.value)
  {
    t.GroupInOrder(g);
    best := Walk(t.members[g], t.grpPrev, t.grpNext, t.lastIo, evictable, t.roster[g]);
  }

  method Walk(head: Option<Id>, ghost prev: Field, next: Field, lastIo: map<Id, nat>, evictable: Id -> bool, ghost list: seq<Id>)
      returns (best: Option<Id>)
    requires Linked(prev, next, head, list)
    ensures best.None? ==> forall y :: y in list ==> !evictable(y)
    ensures best.Some? ==> Oldest(list, lastIo, evictable, best.value)
  {
    var sock := head;
    best := None;
    ghost var i := 0;
    while sock.Some?
      invariant 0 <= i <= |list| && sock == At(list, i)
      invariant best.None? ==> forall j :: 0 <= j < i ==> !evictable(list[j])
      invariant best.Some? ==> best.value in list && evictable(best.value)
      invariant best.Some? ==> forall j :: 0 <= j < i && evictable(list[j]) ==> Io(lastIo, best.value) <= Io(lastIo, list[j])
      decreases |list| - i
    {
      if evictable(sock.value) && (best.None? || Io(lastIo, sock.value) < Io(lastIo, best.value)) {
        best := sock;
      }
      sock := next[sock.value];
      i := i + 1;
    }
  }

  /** One look at a connection: what the group was then, which connection it was, and
      whether it had input waiting; without, it was closed. */
  datatype Turn = Turn(list: seq<Id>, lastIo: map<Id, nat>, ioSeq: nat, victim: Id, waiting: bool)

  /** The looks lead from the first state of the group to the last, and each was at the
      evictable connection with the oldest transfer, in a full group. */
  ghost predicate Told(log: seq<Turn>, limit: int, evictable: Id -> bool, list0: seq<Id>, lastIo0: map<Id, nat>, ioSeq0: nat,
                       list: seq<Id>, lastIo: map<Id, nat>, ioSeq: nat)
  {
    if log == [] then list == list0 && lastIo == lastIo0 && ioSeq == ioSeq0
    else
      var t := log[|log| - 1];
      && Told(log[..|log| - 1], limit, evictable, list0, lastIo0, ioSeq0, t.list, t.lastIo, t.ioSeq)
      && limit <= |t.list| && Oldest(t.list, t.lastIo, evictable, t.victim) && Io(t.lastIo, t.victim) <= ioSeq0
      && list == ListAfter(t) && lastIo == IoAfter(t) && ioSeq == SeqAfter(t)
  }

  /** The connection was looked at and had input waiting. */
  ghost predicate FoundWaiting(log: seq<Turn>, x: Id) {
    exists i :: 0 <= i < |log| && log[i].victim == x && log[i].waiting
  }

  /** The connections that can still be looked at. */
  ghost function Candidates(list: seq<Id>, lastIo: map<Id, nat>, evictable: Id -> bool, start: nat): set<Id> {
    set x | x in list && evictable(x) && Io(lastIo, x) <= start
  }

  lemma {:induction false} RemovedHas(s: seq<Id>, x: Id, y: Id)
    requires Distinct(s) && x in s
    ensures y in Removed(s, x) <==> y in s && y != x
  {
    var i :| 0 <= i < |s| && s[i] == x;
    RemovedIsWithout(s, i);
    WithoutHas(s, i, y);
  }

  /** Every look leaves one candidate less. */
  lemma {:induction false} OneLess(list: seq<Id>, lastIo: map<Id, nat>, evictable: Id -> bool, start: nat, v: Id, ioSeq: nat)
    requires Distinct(list) && Oldest(list, lastIo, evictable, v) && Io(lastIo, v) <= start < ioSeq
    ensures Candidates(list, lastIo[v := ioSeq], evictable, start) == Candidates(list, lastIo, evictable, start) - {v}
    ensures Candidates(Removed(list, v), lastIo, evictable, start) == Candidates(list, lastIo, evictable, start) - {v}
    ensures |Candidates(list, lastIo, evictable, start) - {v}| < |Candidates(list, lastIo, evictable, start)|
  {
    forall y ensures y in Removed(list, v) <==> y in list && y != v {
      RemovedHas(list, v, y);
    }
  }

  /** Who has a transfer noted since the start was found waiting. */
  ghost predicate Accounted(log: seq<Turn>, list: seq<Id>, lastIo: map<Id, nat>, start: nat) {
    forall x :: x in list && Io(lastIo, x) > start ==> FoundWaiting(log, x)
  }

  lemma {:induction false} AccountedNext(log: seq<Turn>, t: Turn, start: nat)
    requires Accounted(log, t.list, t.lastIo, start) && Distinct(t.list) && t.victim in t.list
    ensures Accounted(log + [t], ListAfter(t), IoAfter(t), start)
  {
    assert (log + [t])[|log|] == t;
    forall x | FoundWaiting(log, x) ensures FoundWaiting(log + [t], x) {
      var i :| 0 <= i < |log| && log[i].victim == x && log[i].waiting;
      assert (log + [t])[i] == log[i];
    }
    forall y ensures y in Removed(t.list, t.victim) ==> y in t.list {
      RemovedHas(t.list, t.victim, y);
    }
  }

  /** How far the loop has come: the looks so far, and what is left of the candidates. */
  ghost predicate Progress(log: seq<Turn>, limit: int, evictable: Id -> bool, list0: seq<Id>, lastIo0: map<Id, nat>,
                           start: nat, list: seq<Id>, lastIo: map<Id, nat>, ioSeq: nat)
  {
    && Told(log, limit, evictable, list0, lastIo0, start, list, lastIo, ioSeq)
    && Accounted(log, list, lastIo, start) && start <= ioSeq
    && |log| + |Candidates(list, lastIo, evictable, start)| <= |Candidates(list0, lastIo0, evictable, start)|
  }

  /** The state of the group after a look. */
  ghost function ListAfter(t: Turn): seq<Id> {
    if t.waiting then t.list else Removed(t.list, t.victim)
  }

  ghost function SeqAfter(t: Turn): nat {
    if t.waiting then t.ioSeq + 1 else t.ioSeq
  }

  ghost function IoAfter(t: Turn): map<Id, nat> {
    if t.waiting then t.lastIo[t.victim := SeqAfter(t)] else t.lastIo
  }

  lemma {:induction false} ToldNext(log: seq<Turn>, limit: int, evictable: Id -> bool, list0: seq<Id>, lastIo0: map<Id, nat>,
                                    start: nat, t: Turn)
    requires Told(log, limit, evictable, list0, lastIo0, start, t.list, t.lastIo, t.ioSeq)
    requires limit <= |t.list| && Oldest(t.list, t.lastIo, evictable, t.victim) && Io(t.lastIo, t.victim) <= start
    ensures Told(log + [t], limit, evictable, list0, lastIo0, start, ListAfter(t), IoAfter(t), SeqAfter(t))
  {
    var next := log + [t];
    assert next[..|next| - 1] == log && next[|next| - 1] == t;
  }

  lemma {:induction false} ProgressNext(log: seq<Turn>, limit: int, evictable: Id -> bool, list0: seq<Id>, lastIo0: map<Id, nat>,
                                        start: nat, t: Turn)
    requires Progress(log, limit, evictable, list0, lastIo0, start, t.list, t.lastIo, t.ioSeq) && Distinct(t.list)
    requires limit <= |t.list| && Oldest(t.list, t.lastIo, evictable, t.victim) && Io(t.lastIo, t.victim) <= start
    ensures Progress(log + [t], limit, evictable, list0, lastIo0, start, ListAfter(t), IoAfter(t), SeqAfter(t))
    ensures |Candidates(ListAfter(t), IoAfter(t), evictable, start)| < |Candidates(t.list, t.lastIo, evictable, start)|
  {
    ToldNext(log, limit, evictable, list0, lastIo0, start, t);
    AccountedNext(log, t, start);
    CandidatesAfter(evictable, start, t);
  }

  lemma {:induction false} CandidatesAfter(evictable: Id -> bool, start: nat, t: Turn)
    requires Distinct(t.list) && Oldest(t.list, t.lastIo, evictable, t.victim) && Io(t.lastIo, t.victim) <= start <= t.ioSeq
    ensures |Candidates(ListAfter(t), IoAfter(t), evictable, start)| < |Candidates(t.list, t.lastIo, evictable, start)|
  {
    OneLess(t.list, t.lastIo, evictable, start, t.victim, t.ioSeq + 1);
  }

  /** No candidate is left: every connection is busy or was found with input waiting. */
  lemma {:induction false} NoneLeft(log: seq<Turn>, list: seq<Id>, lastIo: map<Id, nat>, evictable: Id -> bool, start: nat, v: Option<Id>)
    requires Accounted(log, list, lastIo, start)
    requires v.None? ==> forall y :: y in list ==> !evictable(y)
    requires v.Some? ==> Oldest(list, lastIo, evictable, v.value) && Io(lastIo, v.value) > start
    ensures AllAccounted(log, list, evictable)
  {
  }

  /** A victim without input is closed, one with input counts as active. */
  method TakeTurn(t: Table, g: Id, v: Id, waiting: bool) returns (ghost turn: Turn)
    requires t.Valid() && t.Stamped() && g in t.key && v in t.roster[g]
    modifies t`groupOf, t`grpPrev, t`grpNext, t`members, t`count, t`roster, t`hashNext, t`buckets, t`free, t`chains, t`directory,
             t`lastIo, t`ioSeq
    ensures t.Valid() && t.Stamped()
    ensures turn == Turn(old(t.roster)[g], old(t.lastIo), old(t.ioSeq), v, waiting)
    ensures t.roster[g] == ListAfter(turn) && t.lastIo == IoAfter(turn) && t.ioSeq == SeqAfter(turn)
  {
    turn := Turn(t.roster[g], t.lastIo, t.ioSeq, v, waiting);
    if waiting {
      t.NoteIo(v);
    } else {
      assert OwnedBy(t.groupOf, v, g);
      t.Detach(v);
    }
  }

  /** The looks had the answers they got. */
  ghost predicate Answered(log: seq<Turn>, probes: nat -> bool) {
    forall i :: 0 <= i < |log| ==> log[i].waiting == probes(i)
  }

  ghost predicate AllAccounted(log: seq<Turn>, list: seq<Id>, evictable: Id -> bool) {
    forall y :: y in list && evictable(y) ==> FoundWaiting(log, y)
  }

  lemma {:induction false} AnsweredNext(log: seq<Turn>, turn: Turn, probes: nat -> bool)
    requires Answered(log, probes) && turn.waiting == probes(|log|)
    ensures Answered(log + [turn], probes)
  {
  }

  /** One round of the loop: the next look, or the end of it. */
  method Look(t: Table, g: Id, limit: int, evictable: Id -> bool, probes: nat -> bool, n: nat, start: nat,
              ghost log: seq<Turn>, ghost list0: seq<Id>, ghost lastIo0: map<Id, nat>) returns (done: bool, ghost log': seq<Turn>)
    requires t.Valid() && t.Stamped() && g in t.key && limit <= |t.roster[g]| && n == |log| && Answered(log, probes)
    requires Progress(log, limit, evictable, list0, lastIo0, start, t.roster[g], t.lastIo, t.ioSeq)
    modifies t`groupOf, t`grpPrev, t`grpNext, t`members, t`count, t`roster, t`hashNext, t`buckets, t`free, t`chains, t`directory,
             t`lastIo, t`ioSeq
    ensures t.Valid() && t.Stamped()
    ensures Progress(log', limit, evictable, list0, lastIo0, start, t.roster[g], t.lastIo, t.ioSeq)
    ensures done ==> log' == log && AllAccounted(log, t.roster[g], evictable)
    ensures Answered(log', probes) && (!done ==> |log'| == n + 1)
    ensures !done ==> |Candidates(t.roster[g], t.lastIo, evictable, start)|
                      < |Candidates(old(t.roster)[g], old(t.lastIo), evictable, start)|
  {
    var victim := PickVictim(t, g, evictable);
    done, log' := victim.None? || Io(t.lastIo, victim.value) > start, log;
    if done {
      NoneLeft(log, t.roster[g], t.lastIo, evictable, start, victim);
    } else {
      t.ListIsDistinct(g);
      ghost var turn := TakeTurn(t, g, victim.value, probes(n));
      AnsweredNext(log, turn, probes);
      ProgressNext(log, limit, evictable, list0, lastIo0, start, turn);
      log' := log + [turn];
    }
  }

  lemma {:induction false} ProgressStart(limit: int, evictable: Id -> bool, list: seq<Id>, lastIo: map<Id, nat>, start: nat)
    requires forall x :: x in lastIo ==> lastIo[x] <= start
    ensures Progress([], limit, evictable, list, lastIo, start, list, lastIo, start)
  {
  }

  /** The loop: look until there is room or nobody is left to look at. */
  method Trim(t: Table, g: Id, limit: int, evictable: Id -> bool, probes: nat -> bool) returns (ghost log: seq<Turn>)
    requires t.Valid() && t.Stamped() && g in t.key
    modifies t`groupOf, t`grpPrev, t`grpNext, t`members, t`count, t`roster, t`hashNext, t`buckets, t`free, t`chains, t`directory,
             t`lastIo, t`ioSeq
    ensures t.Valid() && t.Stamped()
    ensures Progress(log, limit, evictable, old(t.roster)[g], old(t.lastIo), old(t.ioSeq), t.roster[g], t.lastIo, t.ioSeq)
    ensures Answered(log, probes) && (|t.roster[g]| < limit || AllAccounted(log, t.roster[g], evictable))
  {
    log := [];
    var start, n, done := t.ioSeq, 0, t.count[g] < limit;
    ghost var list0, lastIo0 := t.roster[g], t.lastIo;
    ProgressStart(limit, evictable, list0, lastIo0, start);
    while !done
      invariant t.Valid() && t.Stamped() && n == |log|
      invariant Progress(log, limit, evictable, list0, lastIo0, start, t.roster[g], t.lastIo, t.ioSeq)
      invariant Answered(log, probes)
      invariant if done then |t.roster[g]| < limit || AllAccounted(log, t.roster[g], evictable) else limit <= |t.roster[g]|
      decreases !done, |Candidates(t.roster[g], t.lastIo, evictable, start)|
    {
      done, log := Look(t, g, limit, evictable, probes, n, start, log, list0, lastIo0);
      if !done {
        n, done := n + 1, t.count[g] < limit;
      }
    }
  }

  /** May the connection just accepted be added to its group? `probes` says of each look
      whether there is input waiting. The loop ends, and it refuses only when it must. */
  method Admit(t: Table, g: Id, limit: int, evictable: Id -> bool, probes: nat -> bool) returns (ok: bool, ghost log: seq<Turn>)
    requires t.Valid() && t.Stamped() && g in t.key && t.pinned[g] > 0
    modifies t`groupOf, t`grpPrev, t`grpNext, t`members, t`count, t`roster, t`hashNext, t`buckets, t`free, t`chains, t`directory,
             t`lastIo, t`ioSeq
    ensures t.Valid() && t.Stamped()
    ensures ok <==> limit <= 0 || |t.roster[g]| < limit
    ensures Told(log, limit, evictable, old(t.roster)[g], old(t.lastIo), old(t.ioSeq), t.roster[g], t.lastIo, t.ioSeq)
    ensures |log| <= |Candidates(old(t.roster)[g], old(t.lastIo), evictable, old(t.ioSeq))| && Answered(log, probes)
    ensures !ok ==> AllAccounted(log, t.roster[g], evictable)
  {
    ok, log := true, [];
    if limit > 0 {
      log := Trim(t, g, limit, evictable, probes);
      ok := t.count[g] < limit;
    }
  }
}
