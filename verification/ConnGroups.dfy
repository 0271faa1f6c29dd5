/** Connections grouped by source address: a hash table of reference-counted groups,
    each with an intrusive doubly linked list of its connections, and a free list.
    `directory` is the plain map the table stands for. */
module ConnGroups {
  import opened Bytes
  import opened Sequences
  import opened LinkedLists

  const BUCKETS: nat := 256

  type Key = Bytes

  /** What the table knows about one address: its group, the connections in it, the
      newest first, and how many accepts in progress hold it. */
  datatype Slot = Slot(group: Id, list: seq<Id>, pinned: nat)

  type Directory = map<Key, Slot>

  function BucketOf(hash: Key -> nat, k: Key): (b: nat)
    ensures b < BUCKETS
  {
    hash(k) % BUCKETS
  }

  /** A slot nobody uses is not kept. */
  function Settle(d: Directory, key: Key, slot: Slot): Directory {
    if slot.list == [] && slot.pinned == 0 then d - {key} else d[key := slot]
  }

  ghost predicate Used(pinned: map<Id, nat>, roster: map<Id, seq<Id>>, g: Id)
    requires g in pinned && g in roster
  {
    roster[g] != [] || pinned[g] > 0
  }

  /** The fields of the groups there are. */
  ghost predicate Together(key: map<Id, Key>, pinned: map<Id, nat>, roster: map<Id, seq<Id>>) {
    (forall g :: g in key ==> g in pinned && g in roster) && forall g :: g in roster ==> g in key
  }

  /** Where a group has to be, and what the directory has to say about it. */
  ghost predicate Booked(hash: Key -> nat, key: map<Id, Key>, pinned: map<Id, nat>, roster: map<Id, seq<Id>>,
                         chains: seq<seq<Id>>, d: Directory, g: Id)
    requires g in key && g in pinned && g in roster && |chains| == BUCKETS + 1
  {
    if Used(pinned, roster, g)
    then g in chains[BucketOf(hash, key[g])] && key[g] in d && d[key[g]] == Slot(g, roster[g], pinned[g])
    else g in chains[BUCKETS]
  }

  ghost predicate Held(key: map<Id, Key>, pinned: map<Id, nat>, roster: map<Id, seq<Id>>, d: Directory, k: Key)
    requires k in d && Together(key, pinned, roster)
  {
    var g := d[k].group;
    g in key && key[g] == k && Used(pinned, roster, g)
  }

  ghost predicate Ledger(hash: Key -> nat, key: map<Id, Key>, pinned: map<Id, nat>, roster: map<Id, seq<Id>>,
                         chains: seq<seq<Id>>, d: Directory)
  {
    && Together(key, pinned, roster) && |chains| == BUCKETS + 1
    && (forall g {:trigger Booked(hash, key, pinned, roster, chains, d, g)} ::
         g in key ==> Booked(hash, key, pinned, roster, chains, d, g))
    && (forall k {:trigger Held(key, pinned, roster, d, k)} :: k in d ==> Held(key, pinned, roster, d, k))
  }

  /** The groups in a bucket are the ones that hash there; list `BUCKETS` is the free list. */
  ghost predicate Filed(hash: Key -> nat, key: map<Id, Key>, chains: seq<seq<Id>>) {
    && |chains| == BUCKETS + 1
    && forall b, g :: 0 <= b <= BUCKETS && g in chains[b] ==> g in key && (b == BUCKETS || b == BucketOf(hash, key[g]))
  }

  ghost predicate Index(hash: Key -> nat, key: map<Id, Key>, hashNext: Field, heads: seq<Option<Id>>, chains: seq<seq<Id>>) {
    Forest(hashNext, heads, chains) && Filed(hash, key, chains)
  }

  lemma {:induction false} ForestAt(next: Field, heads: seq<Option<Id>>, lists: seq<seq<Id>>, b: nat)
    requires Forest(next, heads, lists) && b < |lists|
    ensures Chained(next, heads[b], lists[b])
  {
  }

  /** The index when the first free group goes to the head of bucket `b`. */
  lemma {:induction false} IndexReuse(hash: Key -> nat, key: map<Id, Key>, hashNext: Field, buckets: seq<Option<Id>>,
                                      free: Option<Id>, chains: seq<seq<Id>>, g: Id, k: Key)
    requires |buckets| == BUCKETS && Index(hash, key, hashNext, buckets + [free], chains) && free == Some(g)
    ensures g in key && g in hashNext && chains[BUCKETS] != [] && chains[BUCKETS][0] == g
    ensures forall b :: 0 <= b < BUCKETS ==> g !in chains[b]
    ensures var b := BucketOf(hash, k);
            Index(hash, key[g := k], hashNext[g := buckets[b]], buckets[b := Some(g)] + [hashNext[g]],
                  chains[BUCKETS := chains[BUCKETS][1..]][b := [g] + chains[b]])
  {
    var b, f := BucketOf(hash, k), chains[BUCKETS];
    var heads := buckets + [free];
    ForestAt(hashNext, heads, chains, BUCKETS);
    ForestCut(hashNext, heads, chains, BUCKETS, 0);
    assert Without(f, 0) == f[1..];
    assert heads[BUCKETS := hashNext[g]] == buckets + [hashNext[g]];
    assert f == [g] + f[1..];
    ForestPush(hashNext, buckets + [hashNext[g]], chains[BUCKETS := f[1..]], b, g);
    assert (buckets + [hashNext[g]])[b := Some(g)] == buckets[b := Some(g)] + [hashNext[g]];
  }

  /** The index when a new group goes to the head of bucket `b`. */
  lemma {:induction false} IndexFresh(hash: Key -> nat, key: map<Id, Key>, hashNext: Field, buckets: seq<Option<Id>>,
                                      free: Option<Id>, chains: seq<seq<Id>>, g: Id, k: Key)
    requires |buckets| == BUCKETS && Index(hash, key, hashNext, buckets + [free], chains) && g !in key
    ensures var b := BucketOf(hash, k);
            Index(hash, key[g := k], hashNext[g := buckets[b]], buckets[b := Some(g)] + [free],
                  chains[b := [g] + chains[b]])
  {
    var b := BucketOf(hash, k);
    ForestPush(hashNext, buckets + [free], chains, b, g);
    assert (buckets + [free])[b := Some(g)] == buckets[b := Some(g)] + [free];
  }

  /** The lists when element `i` of bucket `b` goes to the head of the free list. */
  ghost function Retired(chains: seq<seq<Id>>, b: nat, i: nat): seq<seq<Id>>
    requires |chains| == BUCKETS + 1 && b < BUCKETS && i < |chains[b]|
  {
    chains[b := Without(chains[b], i)][BUCKETS := [chains[b][i]] + chains[BUCKETS]]
  }

  lemma {:induction false} FiledRetire(hash: Key -> nat, key: map<Id, Key>, chains: seq<seq<Id>>, b: nat, i: nat)
    requires Filed(hash, key, chains) && b < BUCKETS && i < |chains[b]| && Distinct(chains[b])
    ensures Filed(hash, key, Retired(chains, b, i))
  {
    forall x ensures x in Without(chains[b], i) ==> x in chains[b] {
      WithoutHas(chains[b], i, x);
    }
  }

  lemma {:induction false} ForestRetire(hashNext: Field, buckets: seq<Option<Id>>, free: Option<Id>,
                                        chains: seq<seq<Id>>, b: nat, i: nat)
    requires |buckets| == BUCKETS && |chains| == BUCKETS + 1 && Forest(hashNext, buckets + [free], chains)
    requires b < BUCKETS && i < |chains[b]|
    ensures var s := chains[b];
            && s[i] in hashNext
            && var next := if i == 0 then hashNext else hashNext[s[i - 1] := hashNext[s[i]]];
            var heads := if i == 0 then buckets[b := hashNext[s[i]]] else buckets;
            Forest(next[s[i] := free], heads + [Some(s[i])], Retired(chains, b, i))
  {
    var s := chains[b];
    var g := s[i];
    ForestAt(hashNext, buckets + [free], chains, b);
    ForestCut(hashNext, buckets + [free], chains, b, i);
    var next := if i == 0 then hashNext else hashNext[s[i - 1] := hashNext[g]];
    var heads := if i == 0 then buckets[b := hashNext[g]] else buckets;
    assert i == 0 ==> (buckets + [free])[b := hashNext[g]] == heads + [free];
    var lists := chains[b := Without(s, i)];
    WithoutHas(s, i, g);
    assert forall a :: 0 <= a < |lists| ==> g !in lists[a];
    ForestPush(next, heads + [free], lists, BUCKETS, g);
    assert (heads + [free])[BUCKETS := Some(g)] == heads + [Some(g)];
  }

  /** The ledger when a group in use changes, in place or on its way to the free list. */
  lemma {:induction false} LedgerUpdate(hash: Key -> nat, key: map<Id, Key>, pinned: map<Id, nat>, roster: map<Id, seq<Id>>,
                                        chains: seq<seq<Id>>, d: Directory,
                                        pinned': map<Id, nat>, roster': map<Id, seq<Id>>, chains': seq<seq<Id>>, g: Id)
    requires Ledger(hash, key, pinned, roster, chains, d) && g in key && Used(pinned, roster, g)
    requires Together(key, pinned', roster') && |chains'| == BUCKETS + 1
    requires forall h :: h in key && h != g ==> pinned'[h] == pinned[h] && roster'[h] == roster[h]
    requires forall b, h :: 0 <= b <= BUCKETS && h != g && h in chains[b] ==> h in chains'[b]
    requires g in chains'[if Used(pinned', roster', g) then BucketOf(hash, key[g]) else BUCKETS]
    ensures Known(key, d, g, Slot(g, roster[g], pinned[g]))
    ensures Ledger(hash, key, pinned', roster', chains', Settle(d, key[g], Slot(g, roster'[g], pinned'[g])))
  {
    assert Booked(hash, key, pinned, roster, chains, d, g);
    var d' := Settle(d, key[g], Slot(g, roster'[g], pinned'[g]));
    forall k | k in d' ensures Held(key, pinned', roster', d', k) {
      assert k in d && Held(key, pinned, roster, d, k);
    }
    forall h | h in key ensures Booked(hash, key, pinned', roster', chains', d', h) {
      assert Booked(hash, key, pinned, roster, chains, d, h);
    }
  }

  ghost predicate Known(key: map<Id, Key>, d: Directory, g: Id, slot: Slot) {
    g in key && key[g] in d && d[key[g]] == slot
  }

  /** The ledger when a group that is not in use is given to a new address. */
  lemma {:induction false} LedgerAdmit(hash: Key -> nat, key: map<Id, Key>, pinned: map<Id, nat>, roster: map<Id, seq<Id>>,
                                       chains: seq<seq<Id>>, d: Directory, chains': seq<seq<Id>>, g: Id, k: Key)
    requires Ledger(hash, key, pinned, roster, chains, d) && k !in d
    requires g in key ==> !Used(pinned, roster, g)
    requires |chains'| == BUCKETS + 1 && g in chains'[BucketOf(hash, k)]
    requires forall b, h :: 0 <= b <= BUCKETS && h != g && h in chains[b] ==> h in chains'[b]
    ensures Ledger(hash, key[g := k], pinned[g := 1], roster[g := []], chains', d[k := Slot(g, [], 1)])
  {
    var key' := key[g := k];
    var d' := d[k := Slot(g, [], 1)];
    forall c | c in d' ensures Held(key', pinned[g := 1], roster[g := []], d', c) {
      assert c in d ==> Held(key, pinned, roster, d, c);
    }
    forall h | h in key'
      ensures Booked(hash, key', pinned[g := 1], roster[g := []], chains', d', h)
    {
      if h != g {
        assert Booked(hash, key, pinned, roster, chains, d, h);
      }
    }
  }

  lemma {:induction false} ApplyAttached(d: Directory, k: Key, x: Id, was: Slot)
    requires k in d && d[k] == was && was.pinned > 0
    ensures Apply(d, Attached(k, x)) == Settle(d, k, Slot(was.group, [x] + was.list, was.pinned - 1))
  {
  }

  /** What can happen to the table. */
  datatype Use = Acquired(key: Key, group: Id) | Released(key: Key) | Attached(key: Key, sock: Id) | Detached(key: Key, sock: Id)

  ghost function Apply(d: Directory, u: Use): Directory {
    match u
    case Acquired(k, g) => if k in d then d[k := d[k].(pinned := d[k].pinned + 1)] else d[k := Slot(g, [], 1)]
    case Released(k) => if k in d && d[k].pinned > 0 then Settle(d, k, d[k].(pinned := d[k].pinned - 1)) else d
    case Attached(k, x) =>
      if k in d && d[k].pinned > 0 then Settle(d, k, Slot(d[k].group, [x] + d[k].list, d[k].pinned - 1)) else d
    case Detached(k, x) => if k in d then Settle(d, k, d[k].(list := Removed(d[k].list, x))) else d
  }

  ghost function ApplyAll(d: Directory, run: seq<Use>): Directory {
    if run == [] then d else Apply(ApplyAll(d, run[..|run| - 1]), run[|run| - 1])
  }

  /** How often the run takes a hold on the group of `k`, and how often one ends. */
  ghost function Holds(run: seq<Use>, k: Key): nat {
    if run == [] then 0
    else Holds(run[..|run| - 1], k) + if run[|run| - 1].Acquired? && run[|run| - 1].key == k then 1 else 0
  }

  ghost function Ends(run: seq<Use>, k: Key): nat {
    if run == [] then 0
    else Ends(run[..|run| - 1], k) +
         if (run[|run| - 1].Released? || run[|run| - 1].Attached?) && run[|run| - 1].key == k then 1 else 0
  }

  /** At least one hold on the address is open all through the run, whichever it is. */
  ghost predicate HeldThroughout(d: Directory, run: seq<Use>, k: Key)
    requires k in d
  {
    forall n :: 0 <= n <= |run| ==> Ends(run[..n], k) < d[k].pinned + Holds(run[..n], k)
  }

  /** An accept in progress never loses its group: as long as some hold on the address is
      open, whatever else happens to the table, other accepts of the address coming and
      going and the closing of its last connection included, its group is the same one
      and the holds add up. */
  lemma {:induction false} HoldKeepsGroup(d: Directory, run: seq<Use>, k: Key)
    requires k in d && HeldThroughout(d, run, k)
    ensures var e := ApplyAll(d, run);
            k in e && e[k].group == d[k].group && e[k].pinned == d[k].pinned + Holds(run, k) - Ends(run, k)
  {
    if run != [] {
      var before := run[..|run| - 1];
      assert run[..|run|] == run && forall n :: 0 <= n <= |before| ==> before[..n] == run[..n];
      HoldKeepsGroup(d, before, k);
      assert Ends(run[..|run|], k) < d[k].pinned + Holds(run[..|run|], k);
    }
  }

  /** `s` without `x`. */
  ghost function Removed(s: seq<Id>, x: Id): seq<Id> {
    if s == [] then [] else if s[0] == x then s[1..] else [s[0]] + Removed(s[1..], x)
  }

  lemma {:induction false} RemovedIsWithout(s: seq<Id>, i: nat)
    requires i < |s| && Distinct(s)
    ensures Removed(s, s[i]) == Without(s, i)
  {
    if i > 0 {
      RemovedIsWithout(s[1..], i - 1);
    }
  }

  class Table {
    const hash: Key -> nat

    // the groups
    var key: map<Id, Key>
    var count: map<Id, nat>
    var pinned: map<Id, nat>
    var members: Field
    var hashNext: Field
    // the connections
    var groupOf: Field
    var grpPrev: Field
    var grpNext: Field
    var lastIo: map<Id, nat>
    // the globals
    var buckets: seq<Option<Id>>
    var free: Option<Id>
    var ioSeq: nat
    var created: nat

    ghost var chains: seq<seq<Id>>
    ghost var roster: map<Id, seq<Id>>
    ghost var directory: Directory

    ghost predicate Indexed()
      reads `key, `created, `hashNext, `buckets, `free, `chains
    {
      && |buckets| == BUCKETS && Index(hash, key, hashNext, buckets + [free], chains)
      && forall g :: g in key ==> g < created
    }

    ghost predicate Listed()
      reads `count, `members, `groupOf, `grpPrev, `grpNext, `roster
    {
      && AllLinked(grpPrev, grpNext, members, roster) && Owned(groupOf, roster)
      && forall g :: g in roster ==> g in count && count[g] == |roster[g]|
    }

    ghost predicate Recorded()
      reads `key, `pinned, `roster, `chains, `directory
    {
      Ledger(hash, key, pinned, roster, chains, directory)
    }

    /** No noted transfer is ahead of the counter. */
    ghost predicate Stamped()
      reads `lastIo, `ioSeq
    {
      forall x :: x in lastIo ==> lastIo[x] <= ioSeq
    }

    ghost predicate Valid()
      reads this
    {
      Indexed() && Listed() && Recorded()
    }

    constructor (hash: Key -> nat)
      ensures Valid() && directory == map[] && ioSeq == 0 && groupOf == map[]
    {
      this.hash := hash;
      key, count, pinned, members, hashNext := map[], map[], map[], map[], map[];
      groupOf, grpPrev, grpNext, lastIo := map[], map[], map[], map[];
      buckets, free, ioSeq, created := seq(BUCKETS, _ => None), None, 0, 0;
      chains, roster, directory := seq(BUCKETS + 1, _ => []), map[], map[];
    }

    /** Walk a chain for a key. */
    method Walk(head: Option<Id>, k: Key, ghost s: seq<Id>) returns (g: Option<Id>)
      requires Chained(hashNext, head, s) && forall x :: x in s ==> x in key
      ensures g.Some? ==> g.value in s && key[g.value] == k
      ensures g.None? ==> forall i :: 0 <= i < |s| ==> key[s[i]] != k
    {
      g := head;
      ghost var i := 0;
      while g.Some? && key[g.value] != k
        invariant 0 <= i <= |s| && g == At(s, i)
        invariant forall j :: 0 <= j < i ==> key[s[j]] != k
        decreases |s| - i
      {
        g := hashNext[g.value];
        i := i + 1;
      }
    }

    /** The chain of a bucket is one. */
    lemma {:induction false} ChainOf(b: nat)
      requires Indexed() && b < BUCKETS
      ensures Chained(hashNext, buckets[b], chains[b])
    {
      ForestAt(hashNext, buckets + [free], chains, b);
    }

    /** A group in a bucket is in use. */
    lemma {:induction false} InUse(b: nat, g: Id)
      requires Indexed() && Recorded() && b < BUCKETS && g in chains[b]
      ensures g in key && Used(pinned, roster, g) && key[g] in directory && directory[key[g]].group == g
    {
      assert Booked(hash, key, pinned, roster, chains, directory, g);
    }

    /** A group the directory knows is in its bucket. */
    lemma {:induction false} InBucket(k: Key)
      requires Recorded() && k in directory
      ensures var g := directory[k].group;
              && g in key && g in chains[BucketOf(hash, k)] && Used(pinned, roster, g)
              && Known(key, directory, g, Slot(g, roster[g], pinned[g])) && key[g] == k
    {
      assert Held(key, pinned, roster, directory, k);
      assert Booked(hash, key, pinned, roster, chains, directory, directory[k].group);
    }

    /** The group of a key, if there is one. */
    method Find(k: Key) returns (g: Option<Id>)
      requires Indexed() && Recorded()
      ensures g == if k in directory then Some(directory[k].group) else None
    {
      var b := BucketOf(hash, k);
      ChainOf(b);
      g := Walk(buckets[b], k, chains[b]);
      if g.Some? {
        InUse(b, g.value);
      } else if k in directory {
        InBucket(k);
      }
    }

    /** One more accept in progress holds the group. */
    method Pin(g: Id)
      requires Recorded() && g in key && Used(pinned, roster, g)
      modifies `pinned, `directory
      ensures Recorded() && Known(key, old(directory), g, Slot(g, roster[g], old(pinned[g])))
      ensures directory == old(directory)[key[g] := Slot(g, roster[g], old(pinned[g]) + 1)]
    {
      ghost var pinned' := pinned[g := pinned[g] + 1];
      assert Booked(hash, key, pinned, roster, chains, directory, g);
      LedgerUpdate(hash, key, pinned, roster, chains, directory, pinned', roster, chains, g);
      directory := directory[key[g] := Slot(g, roster[g], pinned[g] + 1)];
      pinned := pinned[g := pinned[g] + 1];
    }

    /** A group for a new address: the first one of the free list, or a new one. It
        goes to the head of its bucket. */
    method Place(k: Key) returns (g: Id)
      requires Indexed()
      modifies `free, `created, `key, `hashNext, `buckets, `chains
      ensures Indexed() && g in chains[BucketOf(hash, k)]
      ensures |old(chains)| == BUCKETS + 1 && key == old(key)[g := k]
      ensures old(free) == if g in old(key) then Some(g) else None
      ensures forall b, h :: 0 <= b <= BUCKETS && h != g && h in old(chains)[b] ==> h in chains[b]
    {
      var b := BucketOf(hash, k);
      if free.Some? {
        g := free.value;
        IndexReuse(hash, key, hashNext, buckets, free, chains, g, k);
        free := hashNext[g];
        chains := chains[BUCKETS := chains[BUCKETS][1..]];
      } else {
        g := created;
        created := created + 1;
        IndexFresh(hash, key, hashNext, buckets, free, chains, g, k);
      }
      key := key[g := k];
      hashNext := hashNext[g := buckets[b]];
      buckets := buckets[b := Some(g)];
      chains := chains[b := [g] + chains[b]];
    }

    /** The new group, with everything in it cleared. */
    method Clear(g: Id)
      requires Listed() && (g in roster ==> roster[g] == [])
      modifies `count, `members, `roster
      ensures Listed() && roster == old(roster)[g := []]
    {
      AllClear(grpPrev, grpNext, members, roster, g);
      OwnedClear(groupOf, roster, g);
      count := count[g := 0];
      members := members[g := None];
      roster := roster[g := []];
    }

    /** It is held for the accept it was made for. */
    method Hold(g: Id, k: Key)
      requires Ledger(hash, key, pinned[g := 1], roster, chains, directory[k := Slot(g, [], 1)])
      modifies `pinned, `directory
      ensures Recorded() && directory == old(directory)[k := Slot(g, [], 1)]
    {
      pinned := pinned[g := 1];
      directory := directory[k := Slot(g, [], 1)];
    }

    method Admit(g: Id, k: Key)
      requires Listed() && (g in roster ==> roster[g] == [])
      requires Ledger(hash, key, pinned[g := 1], roster[g := []], chains, directory[k := Slot(g, [], 1)])
      modifies `count, `members, `roster, `pinned, `directory
      ensures Listed() && Recorded() && directory == old(directory)[k := Slot(g, [], 1)]
    {
      Clear(g);
      Hold(g, k);
    }

    /** The group of an address, held for an accept in progress. */
    method Acquire(k: Key) returns (g: Id)
      requires Valid()
      modifies `key, `count, `pinned, `members, `hashNext, `buckets, `free, `created, `chains, `roster, `directory
      ensures Valid() && k in directory && Known(key, directory, g, directory[k]) && key[g] == k
      ensures directory == Apply(old(directory), Acquired(k, g)) && directory[k].group == g
    {
      var found := Find(k);
      if found.Some? {
        g := found.value;
        InBucket(k);
        Pin(g);
      } else {
        g := Create(k);
      }
    }

    /** What is on the free list is not in use. */
    lemma {:induction false} FreeUnused(g: Id)
      requires Indexed() && Recorded() && free == Some(g)
      ensures g in key && !Used(pinned, roster, g)
    {
      ForestAt(hashNext, buckets + [free], chains, BUCKETS);
      assert g == chains[BUCKETS][0] && g in key;
      assert Booked(hash, key, pinned, roster, chains, directory, g);
    }

    /** The same, and what the ledger is going to be. */
    method Enter(k: Key) returns (g: Id)
      requires Indexed() && Recorded() && k !in directory
      modifies `free, `created, `key, `hashNext, `buckets, `chains
      ensures Indexed() && key == old(key)[g := k]
      ensures g in roster ==> roster[g] == []
      ensures Ledger(hash, key, pinned[g := 1], roster[g := []], chains, directory[k := Slot(g, [], 1)])
    {
      if free.Some? {
        FreeUnused(free.value);
      }
      g := Place(k);
      LedgerAdmit(hash, old(key), pinned, roster, old(chains), directory, chains, g, k);
    }

    method Create(k: Key) returns (g: Id)
      requires Valid() && k !in directory
      modifies `key, `count, `pinned, `members, `hashNext, `buckets, `free, `created, `chains, `roster, `directory
      ensures Valid() && g in key && key[g] == k && directory == old(directory)[k := Slot(g, [], 1)]
    {
      g := Enter(k);
      Admit(g, k);
    }

    /** Find the group in its bucket: its place and the one before it. The program's
        check for a group that is not there never fires. */
    method Locate(g: Id) returns (prev: Option<Id>, ghost i: nat)
      requires Indexed() && g in key && g in chains[BucketOf(hash, key[g])]
      ensures var s := chains[BucketOf(hash, key[g])]; i < |s| && s[i] == g && prev == At(s, i - 1)
    {
      var b := BucketOf(hash, key[g]);
      ghost var s := chains[b];
      ChainOf(b);
      ghost var n :| 0 <= n < |s| && s[n] == g;
      i, prev := 0, None;
      var pos := buckets[b];
      while pos != Some(g)
        invariant 0 <= i <= n && pos == Some(s[i]) && prev == At(s, i - 1)
        decreases n - i
      {
        assert s[i] in hashNext;
        prev := pos;
        pos := hashNext[pos.value];
        i := i + 1;
      }
    }

    /** From its bucket to the free list. */
    method Retire(g: Id)
      requires Indexed() && g in key && g in chains[BucketOf(hash, key[g])]
      modifies `hashNext, `buckets, `free, `chains
      ensures Indexed() && g in chains[BUCKETS]
      ensures forall b, h :: 0 <= b <= BUCKETS && h != g && h in old(chains)[b] ==> h in chains[b]
    {
      var b := BucketOf(hash, key[g]);
      var prev;
      ghost var i;
      prev, i := Locate(g);
      ForestRetire(hashNext, buckets, free, chains, b, i);
      FiledRetire(hash, key, chains, b, i);
      forall h ensures h in chains[b] && h != g ==> h in Without(chains[b], i) {
        WithoutHas(chains[b], i, h);
      }
      if prev.Some? {
        hashNext := hashNext[prev.value := hashNext[g]];
      } else {
        buckets := buckets[b := hashNext[g]];
      }
      hashNext := hashNext[g := free];
      free := Some(g);
      chains := Retired(chains, b, i);
    }

    /** Back to the free list once nothing uses the group any more. */
    method Put(g: Id)
      requires Indexed() && Listed() && g in key && g in pinned && g in roster && g in chains[BucketOf(hash, key[g])]
      modifies `hashNext, `buckets, `free, `chains
      ensures Indexed() && g in chains[if Used(pinned, roster, g) then BucketOf(hash, key[g]) else BUCKETS]
      ensures forall b, h :: 0 <= b <= BUCKETS && h != g && h in old(chains)[b] ==> h in chains[b]
    {
      if count[g] == 0 && pinned[g] == 0 {
        Retire(g);
      }
    }

    /** A group that something uses, and what the directory says about it. */
    lemma {:induction false} UsedIsKnown(g: Id)
      requires Recorded() && g in key && Used(pinned, roster, g)
      ensures g in chains[BucketOf(hash, key[g])] && Known(key, directory, g, Slot(g, roster[g], pinned[g]))
    {
      assert Booked(hash, key, pinned, roster, chains, directory, g);
    }

    /** After a group in use has changed: the group goes back if that was the last use,
        and the directory follows. */
    method Rebook(g: Id, ghost was: map<Id, nat>, ghost had: map<Id, seq<Id>>)
      requires Indexed() && Listed() && Ledger(hash, key, was, had, chains, directory)
      requires g in key && Used(was, had, g) && Together(key, pinned, roster)
      requires forall h :: h in key && h != g ==> pinned[h] == was[h] && roster[h] == had[h]
      modifies `hashNext, `buckets, `free, `chains, `directory
      ensures Indexed() && Recorded()
      ensures Known(key, old(directory), g, Slot(g, had[g], was[g]))
      ensures directory == Settle(old(directory), key[g], Slot(g, roster[g], pinned[g]))
    {
      ghost var before := chains;
      assert Booked(hash, key, was, had, chains, directory, g);
      Put(g);
      LedgerUpdate(hash, key, was, had, before, directory, pinned, roster, chains, g);
      directory := Settle(directory, key[g], Slot(g, roster[g], pinned[g]));
    }

    /** The same, with everything in order afterwards. */
    method Settled(g: Id, ghost was: map<Id, nat>, ghost had: map<Id, seq<Id>>)
      requires Indexed() && Listed() && Ledger(hash, key, was, had, chains, directory)
      requires g in key && Used(was, had, g) && Together(key, pinned, roster)
      requires forall h :: h in key && h != g ==> pinned[h] == was[h] && roster[h] == had[h]
      modifies `hashNext, `buckets, `free, `chains, `directory
      ensures Valid()
      ensures Known(key, old(directory), g, Slot(g, had[g], was[g]))
      ensures directory == Settle(old(directory), key[g], Slot(g, roster[g], pinned[g]))
    {
      Rebook(g, was, had);
    }

    /** The accept in progress lets go of the group. */
    method Release(g: Id)
      requires Valid() && g in key && pinned[g] > 0
      modifies `pinned, `hashNext, `buckets, `free, `chains, `directory
      ensures Valid() && Known(key, old(directory), g, Slot(g, roster[g], old(pinned[g])))
      ensures pinned == old(pinned)[g := old(pinned[g]) - 1]
      ensures directory == Apply(old(directory), Released(key[g]))
    {
      ghost var was := pinned;
      pinned := pinned[g := pinned[g] - 1];
      Settled(g, was, roster);
    }

    /** Link a connection into a group, at the head of its list. */
    method Link(g: Id, x: Id)
      requires Listed() && g in roster && (x in groupOf ==> groupOf[x].None?)
      modifies `groupOf, `grpPrev, `grpNext, `members, `count, `roster
      ensures Listed() && groupOf == old(groupOf)[x := Some(g)]
      ensures roster == old(roster)[g := [x] + old(roster)[g]]
    {
      AllPush(groupOf, grpPrev, grpNext, members, roster, g, x);
      OwnedPush(groupOf, roster, g, x);
      groupOf := groupOf[x := Some(g)];
      grpPrev := grpPrev[x := None];
      grpNext := grpNext[x := members[g]];
      if members[g].Some? {
        grpPrev := grpPrev[members[g].value := Some(x)];
      }
      members := members[g := Some(x)];
      count := count[g := count[g] + 1];
      roster := roster[g := [x] + roster[g]];
    }

    lemma {:induction false} ListIsDistinct(g: Id)
      requires Listed() && g in roster
      ensures Distinct(roster[g])
    {
      assert Linked(grpPrev, grpNext, members[g], roster[g]);
    }

    /** Take a connection out of its group's list, wherever it stands. */
    method Unlink(g: Id, x: Id, ghost i: nat)
      requires Listed() && g in roster && i < |roster[g]| && x == roster[g][i]
      modifies `groupOf, `grpPrev, `grpNext, `members, `count, `roster
      ensures Listed() && groupOf == old(groupOf)[x := None]
      ensures roster == old(roster)[g := Without(old(roster)[g], i)]
    {
      AllCut(groupOf, grpPrev, grpNext, members, roster, g, i);
      OwnedCut(groupOf, roster, g, i);
      var prev, next := grpPrev[x], grpNext[x];
      if prev.Some? {
        grpNext := grpNext[prev.value := next];
      } else {
        members := members[g := next];
      }
      if next.Some? {
        grpPrev := grpPrev[next.value := prev];
      }
      grpPrev, grpNext, groupOf := grpPrev[x := None], grpNext[x := None], groupOf[x := None];
      count := count[g := count[g] - 1];
      roster := roster[g := Without(roster[g], i)];
    }

    /** Note a transfer. */
    method NoteIo(x: Id)
      requires Stamped()
      modifies `lastIo, `ioSeq
      ensures Stamped() && ioSeq == old(ioSeq) + 1 && lastIo == old(lastIo)[x := ioSeq]
    {
      ioSeq := ioSeq + 1;
      lastIo := lastIo[x := ioSeq];
    }

    /** The hold on a group becomes a member of it. */
    method Exchange(g: Id, x: Id)
      requires Valid() && g in key && pinned[g] > 0 && (x in groupOf ==> groupOf[x].None?)
      modifies `groupOf, `grpPrev, `grpNext, `members, `count, `roster, `pinned
      ensures Indexed() && Listed() && Ledger(hash, key, old(pinned), old(roster), chains, directory)
      ensures Used(old(pinned), old(roster), g) && Together(key, pinned, roster)
      ensures groupOf == old(groupOf)[x := Some(g)]
      ensures pinned[g] == old(pinned)[g] - 1 && roster[g] == [x] + old(roster)[g]
      ensures forall h :: h in key && h != g ==> pinned[h] == old(pinned)[h] && roster[h] == old(roster)[h]
    {
      Link(g, x);
      pinned := pinned[g := pinned[g] - 1];
    }

    /** A new connection enters the group held for it, and the hold ends. */
    method Join(g: Id, x: Id)
      requires Valid() && g in key && pinned[g] > 0 && (x in groupOf ==> groupOf[x].None?)
      modifies `groupOf, `grpPrev, `grpNext, `members, `count, `roster, `pinned
      modifies `hashNext, `buckets, `free, `chains, `directory
      ensures Valid() && groupOf == old(groupOf)[x := Some(g)]
      ensures roster[g] == [x] + old(roster)[g] && pinned[g] == old(pinned)[g] - 1
      ensures directory == Settle(old(directory), key[g], Slot(g, roster[g], pinned[g]))
    {
      ghost var was, had := pinned, roster;
      Exchange(g, x);
      Settled(g, was, had);
    }

    /** The same, as the directory sees it. */
    method Enroll(g: Id, x: Id)
      requires Valid() && g in key && pinned[g] > 0 && (x in groupOf ==> groupOf[x].None?)
      modifies `groupOf, `grpPrev, `grpNext, `members, `count, `roster, `pinned
      modifies `hashNext, `buckets, `free, `chains, `directory
      ensures Valid() && groupOf == old(groupOf)[x := Some(g)]
      ensures directory == Apply(old(directory), Attached(key[g], x))
    {
      ghost var d, was := directory, Slot(g, roster[g], pinned[g]);
      UsedIsKnown(g);
      Join(g, x);
      ApplyAttached(d, key[g], x, was);
    }

    /** The same, noted as its first transfer. */
    method Attach(g: Id, x: Id)
      requires Valid() && Stamped() && g in key && pinned[g] > 0 && (x in groupOf ==> groupOf[x].None?)
      modifies this
      ensures Valid() && Stamped() && key == old(key) && groupOf == old(groupOf)[x := Some(g)]
      ensures directory == Apply(old(directory), Attached(key[g], x))
      ensures ioSeq == old(ioSeq) + 1 && lastIo == old(lastIo)[x := ioSeq]
    {
      NoteIo(x);
      Enroll(g, x);
    }

    /** Take a connection out of the list of its group. */
    method Remove(g: Id, x: Id)
      requires Listed() && OwnedBy(groupOf, x, g)
      modifies `groupOf, `grpPrev, `grpNext, `members, `count, `roster
      ensures Listed() && groupOf == old(groupOf)[x := None]
      ensures g in old(roster) && x in old(roster)[g] && roster == old(roster)[g := Removed(old(roster)[g], x)]
    {
      ghost var i :| 0 <= i < |roster[g]| && roster[g][i] == x;
      ListIsDistinct(g);
      RemovedIsWithout(roster[g], i);
      Unlink(g, x, i);
    }

    /** A connection that is in a group leaves it. */
    method Leave(g: Id, x: Id)
      requires Valid() && OwnedBy(groupOf, x, g)
      modifies `groupOf, `grpPrev, `grpNext, `members, `count, `roster, `hashNext, `buckets, `free, `chains, `directory
      ensures Valid() && groupOf == old(groupOf)[x := None] && g in old(roster) && x in old(roster)[g]
      ensures Known(key, old(directory), g, Slot(g, old(roster)[g], pinned[g]))
      ensures roster == old(roster)[g := Removed(old(roster)[g], x)]
      ensures directory == Apply(old(directory), Detached(key[g], x))
    {
      ghost var had := roster;
      Remove(g, x);
      Settled(g, pinned, had);
    }

    /** The connection is closed: it leaves its group, if it is in one. */
    method Detach(x: Id)
      requires Valid() && x in groupOf
      modifies `groupOf, `grpPrev, `grpNext, `members, `count, `roster, `hashNext, `buckets, `free, `chains, `directory
      ensures Valid() && groupOf == old(groupOf)[x := None]
      ensures old(groupOf[x].None?) ==> directory == old(directory) && roster == old(roster)
      ensures forall g :: old(groupOf[x]) == Some(g) ==>
                && g in old(roster) && g in pinned && x in old(roster)[g]
                && roster == old(roster)[g := Removed(old(roster)[g], x)]
                && Known(key, old(directory), g, Slot(g, old(roster)[g], pinned[g]))
                && directory == Apply(old(directory), Detached(key[g], x))
    {
      if groupOf[x].Some? {
        assert OwnedBy(groupOf, x, groupOf[x].value);
        Leave(groupOf[x].value, x);
      }
    }

    /** What the invariant says about a group: its list is well formed and counted, and it
        is in the bucket of its address exactly while something uses it, and else on the
        free list. */
    lemma {:induction false} GroupInOrder(g: Id)
      requires Valid() && g in key
      ensures g in members && Linked(grpPrev, grpNext, members[g], roster[g]) && count[g] == |roster[g]|
      ensures count[g] + pinned[g] > 0 <==> g in chains[hash(key[g]) % 256]
      ensures count[g] + pinned[g] == 0 <==> g in chains[256]
      ensures Chained(hashNext, free, chains[256])
      ensures forall b :: 0 <= b < 256 ==> Chained(hashNext, buckets[b], chains[b])
    {
      ForestAt(hashNext, buckets + [free], chains, BUCKETS);
      forall b | 0 <= b < BUCKETS ensures Chained(hashNext, buckets[b], chains[b]) {
        ChainOf(b);
      }
      assert Booked(hash, key, pinned, roster, chains, directory, g);
    }

    /** No two groups in use have the same address. */
    lemma {:induction false} OneGroupPerAddress(g: Id, h: Id)
      requires Valid() && g in key && h in key && key[g] == key[h]
      requires count[g] + pinned[g] > 0 && count[h] + pinned[h] > 0
      ensures g == h
    {
      UsedIsKnown(g);
      UsedIsKnown(h);
    }
  }
}
