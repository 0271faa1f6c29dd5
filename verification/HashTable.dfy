/** A chained hash table with string keys. What it stands for is a plain map; keys are
    cut to 4096 bytes. */
module HashTable {
  import opened Bytes
  import opened Wrapping

  const INITIAL: nat := 16
  const MAX_KEY: nat := 4096

  /** What the table uses of a key. */
  function Cut(key: Bytes): (k: Bytes)
    ensures k <= key && |k| <= MAX_KEY == 4096
    ensures if |key| <= 4096 then k == key else |k| == 4096
  {
    if |key| <= MAX_KEY then key else key[..MAX_KEY]
  }

  /** A pointer the table only keeps; 0 is the null pointer. */
  type Value = nat

  datatype Entry = Entry(key: Bytes, value: Value)

  type Chain = seq<Entry>

  /** The bits that are set in both numbers. */
  function And(x: nat, y: nat): (r: nat)
    ensures r <= y
    decreases y
  {
    if y == 0 then 0 else (if x % 2 == 1 && y % 2 == 1 then 1 else 0) + 2 * And(x / 2, y / 2)
  }

  ghost predicate PowerOfTwo(n: nat) {
    n == 1 || (n > 1 && n % 2 == 0 && PowerOfTwo(n / 2))
  }

  /** The mask below a power of two is a remainder. */
  lemma {:induction false} MaskIsRemainder(x: nat, n: nat)
    requires PowerOfTwo(n)
    ensures And(x, n - 1) == x % n
    decreases n
  {
    if n > 1 {
      var h := n / 2;
      MaskIsRemainder(x / 2, h);
      assert n == 2 * h && (n - 1) % 2 == 1 && (n - 1) / 2 == h - 1;
      RemainderDoubled(x, h);
    }
  }

  lemma {:induction false} RemainderDoubled(x: nat, h: nat)
    requires h > 0
    ensures x % (2 * h) == x % 2 + 2 * (x / 2 % h)
  {
    var q, r := x / 2 / h, x / 2 % h;
    assert x == 2 * (q * h + r) + x % 2;
    assert x == q * (2 * h) + (x % 2 + 2 * r);
    RemainderIs(x, 2 * h, q, x % 2 + 2 * r);
  }

  lemma {:induction false} RemainderIs(x: nat, n: nat, q: nat, r: nat)
    requires r < n && x == q * n + r
    ensures x % n == r
  {
    var d := x / n - q;
    assert x == (x / n) * n + x % n;
    assert d * n == r - x % n;
    Multiple(if d < 0 then -d else d, n);
    assert d < 0 ==> d * n == -((-d) * n);
  }

  lemma {:induction false} Multiple(d: nat, n: nat)
    ensures d > 0 ==> d * n >= n
  {
    if d > 0 {
      Multiple(d - 1, n);
      assert d * n == (d - 1) * n + n;
    }
  }

  lemma {:induction false} PowersAreTwos(n: nat)
    requires IsPower(n)
    ensures PowerOfTwo(n)
    decreases n
  {
    if n == INITIAL {
      assert PowerOfTwo(4);
    } else {
      PowersAreTwos(n / 2);
    }
  }

  /** The bucket of a key: the remainder of its hash. */
  ghost function Slot(hash: Bytes -> nat, key: Bytes, capacity: nat): (i: nat)
    requires capacity > 0
    ensures i < capacity
  {
    hash(key) % capacity
  }

  /** How the table finds it, by a mask. */
  method BucketIndex(hash: Bytes -> nat, key: Bytes, capacity: nat) returns (i: nat)
    requires IsPower(capacity)
    ensures i == Slot(hash, key, capacity)
  {
    PowersAreTwos(capacity);
    MaskIsRemainder(hash(key), capacity);
    i := And(hash(key), capacity - 1);
  }

  ghost predicate IsPower(n: nat) {
    n == INITIAL || (n > INITIAL && n % 2 == 0 && IsPower(n / 2))
  }

  /** The keys of a chain are all different. */
  ghost predicate Apart(chain: Chain) {
    forall i, j :: 0 <= i < j < |chain| ==> chain[i].key != chain[j].key
  }

  /** Every entry of bucket `b` belongs there and is in the map. */
  ghost predicate Belongs(hash: Bytes -> nat, capacity: nat, chain: Chain, b: nat, m: map<Bytes, Value>)
    requires capacity > 0
  {
    forall e :: e in chain ==> e.key in m && m[e.key] == e.value && Slot(hash, e.key, capacity) == b
  }

  ghost predicate Stored(hash: Bytes -> nat, buckets: seq<Chain>, m: map<Bytes, Value>, k: Bytes)
    requires k in m && |buckets| > 0
  {
    Entry(k, m[k]) in buckets[Slot(hash, k, |buckets|)]
  }

  /** The buckets hold exactly the map. */
  ghost predicate Holds(hash: Bytes -> nat, buckets: seq<Chain>, m: map<Bytes, Value>) {
    && |buckets| > 0
    && (forall b :: 0 <= b < |buckets| ==> Apart(buckets[b]) && Belongs(hash, |buckets|, buckets[b], b, m))
    && (forall k {:trigger Stored(hash, buckets, m, k)} :: k in m ==> Stored(hash, buckets, m, k))
  }

  /** An entry added in front of the chain of its key. */
  lemma {:induction false} HoldsPut(hash: Bytes -> nat, buckets: seq<Chain>, m: map<Bytes, Value>, k: Bytes, v: Value)
    requires Holds(hash, buckets, m) && k !in m
    ensures var b := Slot(hash, k, |buckets|);
            Holds(hash, buckets[b := [Entry(k, v)] + buckets[b]], m[k := v])
  {
    var b := Slot(hash, k, |buckets|);
    var chain, m' := [Entry(k, v)] + buckets[b], m[k := v];
    var r := buckets[b := chain];
    assert Belongs(hash, |buckets|, buckets[b], b, m) && Apart(buckets[b]);
    assert forall e :: e in chain <==> e == Entry(k, v) || e in buckets[b];
    forall c | 0 <= c < |r| ensures Apart(r[c]) && Belongs(hash, |r|, r[c], c, m') {
      assert Apart(buckets[c]) && Belongs(hash, |buckets|, buckets[c], c, m);
      if c == b {
        assert forall i :: 0 < i < |chain| ==> chain[i] == buckets[b][i - 1] && chain[i] in buckets[b];
      }
    }
    forall j | j in m' ensures Stored(hash, r, m', j) {
      if j != k {
        assert Stored(hash, buckets, m, j);
      }
    }
  }

  /** The value of an entry replaced. */
  lemma {:induction false} HoldsSet(hash: Bytes -> nat, buckets: seq<Chain>, m: map<Bytes, Value>, b: nat, i: nat, v: Value)
    requires Holds(hash, buckets, m) && b < |buckets| && i < |buckets[b]|
    ensures var k := buckets[b][i].key;
            k in m && Holds(hash, buckets[b := buckets[b][i := Entry(k, v)]], m[k := v])
  {
    var was, k := buckets[b], buckets[b][i].key;
    var chain, m' := was[i := Entry(k, v)], m[k := v];
    var r := buckets[b := chain];
    assert Belongs(hash, |buckets|, was, b, m) && Apart(was) && was[i] in was;
    forall c | 0 <= c < |r| ensures Apart(r[c]) && Belongs(hash, |r|, r[c], c, m') {
      assert Apart(buckets[c]) && Belongs(hash, |buckets|, buckets[c], c, m);
      if c == b {
        forall e | e in chain ensures e.key in m' && m'[e.key] == e.value && Slot(hash, e.key, |r|) == b {
          var j :| 0 <= j < |chain| && chain[j] == e;
          assert j != i ==> was[j] == e && was[j] in was;
        }
      } else {
        assert forall e :: e in buckets[c] ==> e.key != k;
      }
    }
    forall j | j in m' ensures Stored(hash, r, m', j) {
      if j == k {
        assert chain[i] == Entry(k, v);
      } else {
        assert Stored(hash, buckets, m, j);
        var s := Slot(hash, j, |buckets|);
        var n :| 0 <= n < |buckets[s]| && buckets[s][n] == Entry(j, m[j]);
        assert r[s][n] == Entry(j, m[j]);
      }
    }
  }

  /** An entry taken out of its chain. */
  lemma {:induction false} HoldsRemove(hash: Bytes -> nat, buckets: seq<Chain>, m: map<Bytes, Value>, b: nat, i: nat)
    requires Holds(hash, buckets, m) && b < |buckets| && i < |buckets[b]|
    ensures var k := buckets[b][i].key;
            k in m && m[k] == buckets[b][i].value
            && Holds(hash, buckets[b := buckets[b][..i] + buckets[b][i + 1..]], m - {k})
  {
    var was, k := buckets[b], buckets[b][i].key;
    var chain, m' := was[..i] + was[i + 1..], m - {k};
    var r := buckets[b := chain];
    assert Belongs(hash, |buckets|, was, b, m) && Apart(was) && was[i] in was;
    forall j | 0 <= j < |chain| ensures chain[j] == was[if j < i then j else j + 1] && chain[j].key != k && chain[j] in was {
    }
    forall c | 0 <= c < |r| ensures Apart(r[c]) && Belongs(hash, |r|, r[c], c, m') {
      assert Apart(buckets[c]) && Belongs(hash, |buckets|, buckets[c], c, m);
      if c != b {
        assert forall e :: e in buckets[c] ==> e.key != k;
      }
    }
    forall j | j in m' ensures Stored(hash, r, m', j) {
      assert Stored(hash, buckets, m, j);
      var s := Slot(hash, j, |buckets|);
      var n :| 0 <= n < |buckets[s]| && buckets[s][n] == Entry(j, m[j]);
      if s == b {
        assert n != i && chain[if n < i then n else n - 1] == was[n];
      }
    }
  }

  // ----- growing -----

  /** The load test in 32-bit arithmetic. */
  function NoResize(count: nat, capacity: nat): bool {
    (count * 4) % WRAP <= (capacity * 3) % WRAP
  }

  function Pow(k: nat): nat {
    if k == 0 then 16 else 2 * Pow(k - 1)
  }

  lemma {:induction false} PowIsPower(k: nat)
    ensures IsPower(Pow(k)) && Pow(k) >= INITIAL
  {
    if k > 0 {
      PowIsPower(k - 1);
      assert Pow(k) == 2 * Pow(k - 1) && Pow(k) / 2 == Pow(k - 1);
    }
  }

  lemma {:induction false} LargestPower()
    ensures Pow(27) == WRAP / 2
  {
    assert Pow(7) == 0x800;
    assert Pow(14) == 0x4_0000;
    assert Pow(21) == 0x200_0000;
  }

  /** Of two different powers the larger one is at least twice the smaller one. */
  lemma {:induction false} PowerGap(n: nat, m: nat)
    requires IsPower(n) && IsPower(m) && n < m
    ensures 2 * n <= m
  {
    if n > INITIAL && m > INITIAL {
      PowerGap(n / 2, m / 2);
    }
  }

  lemma {:induction false} PowerCases(n: nat)
    requires IsPower(n) && n <= WRAP / 2
    ensures n == WRAP / 2 || n <= WRAP / 4
  {
    PowIsPower(27);
    LargestPower();
    if n < WRAP / 2 {
      PowerGap(n, WRAP / 2);
    }
  }

  /** The test tells the load of three quarters exactly, except in a table of 2^31 buckets:
      there it asks for more room early, and from 2^31 entries on it can miss. */
  lemma {:induction false} LoadTestExact(count: nat, capacity: nat)
    requires count < WRAP && IsPower(capacity) && capacity <= WRAP / 2 && (capacity < WRAP / 2 ==> count < capacity)
    ensures (NoResize(count, capacity) <==> count * 4 <= capacity * 3)
            <==> !(capacity == WRAP / 2
                   && (WRAP / 8 < count < WRAP / 4 || (count >= WRAP / 2 && count % (WRAP / 4) <= WRAP / 8)))
  {
    PowerCases(capacity);
    if capacity == WRAP / 2 {
      LoadTestLargest(count);
    } else {
      LoadTestSmall(count, capacity);
    }
  }

  lemma {:induction false} LoadTestSmall(count: nat, capacity: nat)
    requires count < capacity <= WRAP / 4
    ensures NoResize(count, capacity) <==> count * 4 <= capacity * 3
  {
  }

  lemma {:induction false} LoadTestLargest(count: nat)
    requires count < WRAP
    ensures NoResize(count, WRAP / 2) <==> count % (WRAP / 4) <= WRAP / 8
    ensures (NoResize(count, WRAP / 2) <==> count * 4 <= WRAP / 2 * 3)
            <==> !(WRAP / 8 < count < WRAP / 4 || (count >= WRAP / 2 && count % (WRAP / 4) <= WRAP / 8))
  {
    assert (WRAP / 2 * 3) % WRAP == WRAP / 2;
    QuarterTimesFour(count);
  }

  lemma {:induction false} QuarterTimesFour(count: nat)
    ensures (count * 4) % WRAP == count % (WRAP / 4) * 4
  {
    var q, r := count / (WRAP / 4), count % (WRAP / 4);
    assert count == q * (WRAP / 4) + r;
    RemainderIs(count * 4, WRAP, q, r * 4);
  }

  /** What the test and the doubling do to the load, after one more entry. */
  lemma {:induction false} LoadAfter(n: nat, capacity: nat)
    requires IsPower(capacity) && capacity < WRAP / 2 && n * 4 <= capacity * 3 + 4
    ensures n < WRAP && (NoResize(n, capacity) <==> n * 4 <= capacity * 3)
    ensures (capacity * 2) % WRAP == capacity * 2 && IsPower(capacity * 2) && n * 4 <= capacity * 2 * 3
  {
    PowerCases(capacity);
    PowerLeast(capacity);
    LoadTestExact(n, capacity);
  }

  /** Three quarters full at most, while the table can still grow. */
  ghost predicate Roomy(n: nat, capacity: nat) {
    IsPower(capacity) && capacity <= WRAP / 2 && (capacity < WRAP / 2 ==> n * 4 <= capacity * 3)
  }

  lemma {:induction false} ResizeOutcomes(n: nat, capacity: nat)
    requires IsPower(capacity) && capacity <= WRAP / 2 && (capacity < WRAP / 2 ==> n * 4 <= capacity * 3 + 4)
    ensures NoResize(n % WRAP, capacity) ==> Roomy(n, capacity) && (n < WRAP / 2 ==> n * 4 <= capacity * 3)
    ensures capacity < WRAP / 2 ==>
              (NoResize(n % WRAP, capacity) <==> n * 4 <= capacity * 3) && (capacity * 2) % WRAP == 2 * capacity
    ensures var c := (capacity * 2) % WRAP;
            !NoResize(n % WRAP, capacity) ==>
              if c < capacity then capacity == WRAP / 2 else c > 0 && Roomy(n, c) && n * 4 <= c * 3
  {
    if capacity < WRAP / 2 {
      LoadAfter(n, capacity);
      PowerCases(capacity);
      PowerLeast(capacity);
    } else if n < WRAP {
      LoadTestLargest(n);
    }
  }

  lemma {:induction false} PowerLeast(n: nat)
    requires IsPower(n)
    ensures n >= INITIAL
  {
  }

  /** So the test can pass with as many entries as buckets. */
  lemma {:induction false} LoadTestMisses()
    ensures NoResize(WRAP / 2, WRAP / 2)
  {
  }

  /** The part of a map that hashes below bucket `n` of `capacity`. */
  ghost function Below(hash: Bytes -> nat, m: map<Bytes, Value>, capacity: nat, n: nat): map<Bytes, Value>
    requires capacity > 0
  {
    map k | k in m && Slot(hash, k, capacity) < n :: m[k]
  }

  ghost function Entries(chain: Chain): map<Bytes, Value> {
    if chain == [] then map[] else Entries(chain[..|chain| - 1])[chain[|chain| - 1].key := chain[|chain| - 1].value]
  }

  lemma {:induction false} EntriesOf(chain: Chain, k: Bytes)
    requires Apart(chain)
    ensures k in Entries(chain) <==> exists i :: 0 <= i < |chain| && chain[i].key == k
    ensures forall i :: 0 <= i < |chain| && chain[i].key == k ==> k in Entries(chain) && Entries(chain)[k] == chain[i].value
  {
    if chain != [] {
      var n := |chain| - 1;
      EntriesOf(chain[..n], k);
      assert forall i :: 0 <= i < n ==> chain[..n][i] == chain[i];
    }
  }

  /** Move a chain into other buckets, each entry to the front of its new chain. */
  method MoveChain(hash: Bytes -> nat, chain: Chain, buckets: seq<Chain>, ghost m: map<Bytes, Value>) returns (r: seq<Chain>)
    requires Holds(hash, buckets, m) && Apart(chain) && forall e :: e in chain ==> e.key !in m
    requires IsPower(|buckets|)
    ensures |r| == |buckets| && Holds(hash, r, m + Entries(chain))
  {
    r := buckets;
    var i := 0;
    assert m + Entries([]) == m && chain[..0] == [];
    while i < |chain|
      invariant i <= |chain| && |r| == |buckets| && Holds(hash, r, m + Entries(chain[..i]))
    {
      var e := chain[i];
      var b := BucketIndex(hash, e.key, |r|);
      FreshKey(chain, i);
      assert chain[..i + 1][..i] == chain[..i];
      assert m + Entries(chain[..i + 1]) == (m + Entries(chain[..i]))[e.key := e.value];
      HoldsPut(hash, r, m + Entries(chain[..i]), e.key, e.value);
      r := r[b := [e] + r[b]];
      i := i + 1;
    }
    assert chain[..i] == chain;
  }

  lemma {:induction false} FreshKey(chain: Chain, i: nat)
    requires Apart(chain) && i < |chain|
    ensures chain[i].key !in Entries(chain[..i])
  {
    EntriesOf(chain[..i], chain[i].key);
  }

  /** The keys of bucket `n` are what `Below` gains there. */
  lemma {:induction false} BelowNext(hash: Bytes -> nat, buckets: seq<Chain>, m: map<Bytes, Value>, n: nat)
    requires Holds(hash, buckets, m) && n < |buckets|
    ensures forall e :: e in buckets[n] ==> e.key !in Below(hash, m, |buckets|, n)
    ensures Below(hash, m, |buckets|, n) + Entries(buckets[n]) == Below(hash, m, |buckets|, n + 1)
  {
    var chain := buckets[n];
    assert Apart(chain) && Belongs(hash, |buckets|, chain, n, m);
    forall k ensures k in Entries(chain) <==> k in m && Slot(hash, k, |buckets|) == n
             ensures k in Entries(chain) && k in m ==> Entries(chain)[k] == m[k] {
      EntriesOf(chain, k);
      if k in m && Slot(hash, k, |buckets|) == n {
        assert Stored(hash, buckets, m, k);
        var i :| 0 <= i < |chain| && chain[i] == Entry(k, m[k]);
      }
      if k in Entries(chain) {
        var i :| 0 <= i < |chain| && chain[i].key == k;
        assert chain[i] in chain;
      }
    }
  }

  method Rehash(hash: Bytes -> nat, buckets: seq<Chain>, capacity: nat, ghost m: map<Bytes, Value>) returns (r: seq<Chain>)
    requires Holds(hash, buckets, m) && IsPower(capacity)
    ensures |r| == capacity && Holds(hash, r, m)
  {
    r := seq(capacity, _ => []);
    assert Below(hash, m, |buckets|, 0) == map[];
    var i := 0;
    while i < |buckets|
      invariant i <= |buckets| && |r| == capacity && Holds(hash, r, Below(hash, m, |buckets|, i))
    {
      BelowNext(hash, buckets, m, i);
      r := MoveChain(hash, buckets[i], r, Below(hash, m, |buckets|, i));
      i := i + 1;
    }
    assert Below(hash, m, |buckets|, i) == m;
  }

  /** The first entry of a chain with this key. */
  method Search(chain: Chain, key: Bytes) returns (i: nat)
    ensures i <= |chain| && (i < |chain| ==> chain[i].key == key)
    ensures i == |chain| ==> forall j :: 0 <= j < i ==> chain[j].key != key
  {
    i := 0;
    while i < |chain| && chain[i].key != key
      invariant i <= |chain| && forall j :: 0 <= j < i ==> chain[j].key != key
    {
      i := i + 1;
    }
  }

  class HashMap {
    const hash: Bytes -> nat
    var buckets: seq<Chain>
    var capacity: nat
    var count: nat             // 32 bits
    ghost var model: map<Bytes, Value>

    ghost predicate Valid()
      reads this
    {
      && |buckets| == capacity && Holds(hash, buckets, model) && Roomy(|model|, capacity) && count == |model| % WRAP
      && forall k :: k in model ==> |k| <= MAX_KEY
    }

    constructor (hash: Bytes -> nat)
      ensures Valid() && model == map[]
    {
      this.hash := hash;
      capacity, buckets, count, model := INITIAL, seq(INITIAL, _ => []), 0, map[];
    }

    /** Where a key is; the length of the chain if it is not there. */
    method Locate(key: Bytes) returns (b: nat, i: nat)
      requires |buckets| == capacity && Holds(hash, buckets, model) && IsPower(capacity)
      ensures b < |buckets| && i <= |buckets[b]| && b == Slot(hash, Cut(key), capacity)
      ensures i < |buckets[b]| <==> Cut(key) in model
      ensures i < |buckets[b]| ==> buckets[b][i] == Entry(Cut(key), model[Cut(key)])
    {
      b := BucketIndex(hash, Cut(key), capacity);
      i := Search(buckets[b], Cut(key));
      assert Belongs(hash, |buckets|, buckets[b], b, model);
      assert Cut(key) in model ==> Stored(hash, buckets, model, Cut(key));
      assert i < |buckets[b]| ==> buckets[b][i] in buckets[b];
    }

    /** Every entry stands in the bucket that is the remainder of its hash, and nowhere else. */
    lemma InTheirBuckets()
      requires Valid()
      ensures forall k :: k in model ==> Entry(k, model[k]) in buckets[hash(k) % capacity]
      ensures forall b, e :: 0 <= b < |buckets| && e in buckets[b] ==>
                e.key in model && e.value == model[e.key] && b == hash(e.key) % capacity
    {
      forall k | k in model ensures Entry(k, model[k]) in buckets[hash(k) % capacity] {
        assert Stored(hash, buckets, model, k);
      }
      forall b, e | 0 <= b < |buckets| && e in buckets[b]
        ensures e.key in model && e.value == model[e.key] && b == hash(e.key) % capacity
      {
        assert Belongs(hash, |buckets|, buckets[b], b, model);
      }
    }

    /** The value of a key, or the null pointer. */
    method Get(key: Bytes) returns (v: Value)
      requires Valid()
      ensures v == if Cut(key) in model then model[Cut(key)] else 0
    {
      var b, i := Locate(key);
      v := if i < |buckets[b]| then buckets[b][i].value else 0;
    }

    /** Double the buckets when they are more than three quarters full. */
    method ResizeIfNeeded() returns (ok: bool)
      requires |buckets| == capacity && Holds(hash, buckets, model) && count == |model| % WRAP
      requires IsPower(capacity) && capacity <= WRAP / 2 && (capacity < WRAP / 2 ==> |model| * 4 <= capacity * 3 + 4)
      modifies `buckets, `capacity
      ensures |buckets| == capacity && Holds(hash, buckets, model) && Roomy(|model|, capacity)
      ensures ok && |model| < WRAP / 2 ==> |model| * 4 <= capacity * 3
      ensures !ok ==> capacity == 0x8000_0000
      ensures capacity == if old(capacity) == 0x8000_0000 || |model| * 4 <= old(capacity) * 3 then old(capacity)
                          else 2 * old(capacity)
    {
      ResizeOutcomes(|model|, capacity);
      ok := true;
      if !NoResize(count, capacity) {
        var doubled := (capacity * 2) % WRAP;
        if doubled < capacity {
          ok := false;
        } else {
          buckets := Rehash(hash, buckets, doubled, model);
          capacity := doubled;
        }
      }
    }

    /** Set the value of a key. What the caller sees is a map update; `ok` tells whether a
        resize that was needed has happened. */
    method Put(key: Bytes, value: Value) returns (ok: bool)
      requires Valid()
      modifies `buckets, `capacity, `count, `model
      ensures Valid() && model == old(model)[Cut(key) := value]
      ensures ok && Cut(key) !in old(model) && |model| < 0x8000_0000 ==> |model| * 4 <= capacity * 3
      ensures capacity == if Cut(key) in old(model) || old(capacity) == 0x8000_0000 || |model| * 4 <= old(capacity) * 3
                          then old(capacity) else 2 * old(capacity)
    {
      var b, i := Locate(key);
      ok := true;
      if i < |buckets[b]| {
        HoldsSet(hash, buckets, model, b, i, value);
        buckets := buckets[b := buckets[b][i := Entry(buckets[b][i].key, value)]];
        model := model[Cut(key) := value];
      } else {
        Insert(b, Cut(key), value);
        ok := ResizeIfNeeded();
      }
    }

    method Insert(b: nat, k: Bytes, value: Value)
      requires Valid() && |k| <= MAX_KEY && k !in model && b == Slot(hash, k, capacity)
      modifies `buckets, `count, `model
      ensures |buckets| == capacity && Holds(hash, buckets, model) && count == |model| % WRAP
      ensures model == old(model)[k := value] && |model| == |old(model)| + 1
      ensures forall j :: j in model ==> |j| <= MAX_KEY
    {
      HoldsPut(hash, buckets, model, k, value);
      buckets := buckets[b := [Entry(k, value)] + buckets[b]];
      count := (count + 1) % WRAP;
      model := model[k := value];
    }

    /** Take a key out; its value, or the null pointer. */
    method Remove(key: Bytes) returns (v: Value)
      requires Valid()
      modifies `buckets, `count, `model
      ensures Valid() && model == old(model) - {Cut(key)}
      ensures v == if Cut(key) in old(model) then old(model)[Cut(key)] else 0
    {
      var b, i := Locate(key);
      v := 0;
      if i < |buckets[b]| {
        v := buckets[b][i].value;
        Delete(b, i);
      }
    }

    method Delete(b: nat, i: nat)
      requires Valid() && b < |buckets| && i < |buckets[b]|
      modifies `buckets, `count, `model
      ensures Valid() && model == old(model - {buckets[b][i].key})
    {
      ghost var k := buckets[b][i].key;
      HoldsRemove(hash, buckets, model, b, i);
      SizeLess(model, k);
      OneLess(|model|);
      buckets := buckets[b := buckets[b][..i] + buckets[b][i + 1..]];
      count := (count - 1) % WRAP;
      model := model - {k};
    }
  }

  lemma {:induction false} OneLess(n: nat)
    requires n > 0
    ensures (n % WRAP - 1) % WRAP == (n - 1) % WRAP
  {
    assert n - 1 == n % WRAP - 1 + WRAP * (n / WRAP);
  }

  lemma {:induction false} SizeLess(m: map<Bytes, Value>, k: Bytes)
    requires k in m
    ensures |m - {k}| == |m| - 1
  {
    assert (m - {k}).Keys == m.Keys - {k};
  }
}
