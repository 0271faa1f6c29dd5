/** The walk over a hash table in the order of its keys. */
module HashWalk {
  import opened Bytes
  import opened Sequences
  import opened Wrapping
  import opened HashTable

  /** The order of `strcmp`. */
  predicate Less(a: Bytes, b: Bytes) {
    b != [] && (a == [] || a[0] < b[0] || (a[0] == b[0] && Less(a[1..], b[1..])))
  }

  /** One text is the beginning of the other, or they differ first at a place where the octet
      of `a` is the smaller one. */
  ghost predicate Before(a: Bytes, b: Bytes) {
    a < b || exists k :: FirstDiffer(a, b, k) && a[k] < b[k]
  }

  ghost predicate FirstDiffer(a: Bytes, b: Bytes, k: int) {
    0 <= k < |a| && k < |b| && a[..k] == b[..k] && a[k] != b[k]
  }

  lemma {:induction false} LessIff(a: Bytes, b: Bytes)
    ensures Less(a, b) <==> Before(a, b)
    decreases |a|
  {
    if a != [] && b != [] && a[0] == b[0] {
      LessIff(a[1..], b[1..]);
      ShorterBefore(a, b);
    } else if a != [] && b != [] {
      assert FirstDiffer(a, b, 0);
      forall k | FirstDiffer(a, b, k) ensures k == 0 {
        FirstAlike(a, b, k);
      }
    }
  }

  lemma {:induction false} FirstAlike(a: Bytes, b: Bytes, k: int)
    requires FirstDiffer(a, b, k)
    ensures k > 0 ==> a[0] == b[0]
  {
    if k > 0 {
      assert a[..k][0] == b[..k][0];
    }
  }

  lemma {:induction false} ShorterBefore(a: Bytes, b: Bytes)
    requires a != [] && b != [] && a[0] == b[0]
    ensures Before(a, b) <==> Before(a[1..], b[1..])
  {
    assert a == [a[0]] + a[1..] && b == [b[0]] + b[1..];
    if k :| FirstDiffer(a[1..], b[1..], k) && a[1..][k] < b[1..][k] {
      assert a[..k + 1] == [a[0]] + a[1..][..k] && b[..k + 1] == [b[0]] + b[1..][..k];
      assert FirstDiffer(a, b, k + 1);
    }
    if k :| FirstDiffer(a, b, k) && a[k] < b[k] {
      assert a[1..][..k - 1] == a[..k][1..] == b[..k][1..] == b[1..][..k - 1];
      assert FirstDiffer(a[1..], b[1..], k - 1);
    }
  }

  lemma {:induction false} LessTotal(a: Bytes, b: Bytes)
    ensures Less(a, b) || a == b || Less(b, a)
    ensures !(Less(a, b) && Less(b, a)) && !Less(a, a)
  {
    if a != [] && b != [] && a[0] == b[0] {
      LessTotal(a[1..], b[1..]);
      assert a == [a[0]] + a[1..] && b == [b[0]] + b[1..];
    }
    if a != [] {
      LessTotal(a[1..], a[1..]);
    }
  }

  lemma {:induction false} LessTrans(a: Bytes, b: Bytes, c: Bytes)
    requires Less(a, b) && Less(b, c)
    ensures Less(a, c)
  {
    if a != [] && a[0] == b[0] && b[0] == c[0] {
      LessTrans(a[1..], b[1..], c[1..]);
    }
  }

  /** Every key once, in ascending order. */
  ghost predicate Ascending(keys: seq<Bytes>) {
    forall i, j :: 0 <= i < j < |keys| ==> Less(keys[i], keys[j])
  }

  /** The list has exactly the keys of the map, each once. */
  ghost predicate Lists(keys: seq<Bytes>, m: map<Bytes, Value>) {
    Distinct(keys) && forall k :: k in keys <==> k in m
  }

  lemma {:induction false} ListsNext(keys: seq<Bytes>, m: map<Bytes, Value>, k: Bytes, v: Value)
    requires Lists(keys, m) && k !in m
    ensures Lists(keys + [k], m[k := v])
  {
  }

  lemma {:induction false} ListsSize(keys: seq<Bytes>, m: map<Bytes, Value>)
    requires Lists(keys, m)
    ensures |keys| == |m|
  {
    if keys == [] {
      assert forall k :: k in m ==> k in keys;
      assert m == map[];
    } else {
      var n := |keys| - 1;
      var k := keys[n];
      assert k in m;
      SizeLess(m, k);
      assert Lists(keys[..n], m - {k}) by {
        forall j ensures j in keys[..n] <==> j in m - {k} {
          if j in keys && j != k {
            var i :| 0 <= i < |keys| && keys[i] == j;
            assert keys[..n][i] == j;
          }
        }
      }
      ListsSize(keys[..n], m - {k});
    }
  }

  /** Put a key in its place among sorted ones. */
  method Insert(keys: seq<Bytes>, k: Bytes) returns (r: seq<Bytes>)
    requires Ascending(keys) && k !in keys
    ensures Ascending(r) && forall j :: j in r <==> j == k || j in keys
  {
    var i := 0;
    while i < |keys| && Less(keys[i], k)
      invariant i <= |keys| && forall j :: 0 <= j < i ==> Less(keys[j], k)
    {
      i := i + 1;
    }
    Placed(keys, k, i);
    r := keys[..i] + [k] + keys[i..];
  }

  lemma {:induction false} Placed(keys: seq<Bytes>, k: Bytes, i: nat)
    requires Ascending(keys) && k !in keys && i <= |keys|
    requires (forall j :: 0 <= j < i ==> Less(keys[j], k)) && (i < |keys| ==> !Less(keys[i], k))
    ensures Ascending(keys[..i] + [k] + keys[i..])
    ensures forall j :: j in keys[..i] + [k] + keys[i..] <==> j == k || j in keys
  {
    var r := keys[..i] + [k] + keys[i..];
    forall j | i <= j < |keys| ensures Less(k, keys[j]) {
      LessTotal(k, keys[i]);
      if j > i {
        LessTrans(k, keys[i], keys[j]);
      }
    }
    assert keys == keys[..i] + keys[i..];
    forall a, b | 0 <= a < b < |r| ensures Less(r[a], r[b]) {
      assert r[a] == if a < i then keys[a] else if a == i then k else keys[a - 1];
      assert r[b] == if b < i then keys[b] else if b == i then k else keys[b - 1];
    }
  }

  /** What the library sort does to keys that are all different. */
  method Sort(keys: seq<Bytes>) returns (r: seq<Bytes>)
    requires Distinct(keys)
    ensures Ascending(r) && forall k :: k in r <==> k in keys
  {
    r := [];
    var i := 0;
    while i < |keys|
      invariant i <= |keys| && Ascending(r) && forall k :: k in r <==> k in keys[..i]
    {
      assert keys[..i + 1] == keys[..i] + [keys[i]];
      r := Insert(r, keys[i]);
      i := i + 1;
    }
    assert keys[..i] == keys;
  }

  /** The keys of one chain, behind those collected so far. */
  method CollectChain(chain: Chain, keys: seq<Bytes>, ghost m: map<Bytes, Value>) returns (r: seq<Bytes>)
    requires Lists(keys, m) && Apart(chain) && forall e :: e in chain ==> e.key !in m
    ensures Lists(r, m + Entries(chain))
  {
    r := keys;
    var i := 0;
    assert m + Entries([]) == m && chain[..0] == [];
    while i < |chain|
      invariant i <= |chain| && Lists(r, m + Entries(chain[..i]))
    {
      var e := chain[i];
      FreshKey(chain, i);
      assert chain[..i + 1][..i] == chain[..i];
      assert m + Entries(chain[..i + 1]) == (m + Entries(chain[..i]))[e.key := e.value];
      ListsNext(r, m + Entries(chain[..i]), e.key, e.value);
      r := r + [e.key];
      i := i + 1;
    }
    assert chain[..i] == chain;
  }

  method CollectKeys(h: HashMap) returns (keys: seq<Bytes>)
    requires h.Valid()
    ensures Lists(keys, h.model)
  {
    keys := [];
    var i := 0;
    assert Below(h.hash, h.model, h.capacity, 0) == map[];
    while i < h.capacity
      invariant i <= h.capacity && Lists(keys, Below(h.hash, h.model, h.capacity, i))
    {
      BelowNext(h.hash, h.buckets, h.model, i);
      keys := CollectChain(h.buckets[i], keys, Below(h.hash, h.model, h.capacity, i));
      i := i + 1;
    }
    assert Below(h.hash, h.model, h.capacity, i) == h.model;
  }

  /** Look up and report one key after the other. */
  method Report(h: HashMap, keys: seq<Bytes>) returns (visits: seq<Entry>)
    requires h.Valid() && h.count == |keys| && forall k :: k in keys ==> k in h.model
    ensures |visits| == |keys|
    ensures forall i :: 0 <= i < |keys| ==> keys[i] in h.model && visits[i] == Entry(keys[i], h.model[keys[i]])
  {
    visits := [];
    var i := 0;
    while i < h.count
      invariant i <= |keys| && |visits| == i
      invariant forall j :: 0 <= j < i ==> keys[j] in h.model && visits[j] == Entry(keys[j], h.model[keys[j]])
    {
      assert keys[i] in keys;
      var v := h.Get(keys[i]);
      visits := visits + [Entry(keys[i], v)];
      i := i + 1;
    }
  }

  /** The sorted walk: every key once, in ascending order, octet by octet, with its value. */
  method ForEachSorted(h: HashMap) returns (visits: seq<Entry>)
    requires h.Valid() && |h.model| < WRAP
    ensures |visits| == |h.model|
    ensures forall i :: 0 <= i < |visits| ==> visits[i].key in h.model && visits[i].value == h.model[visits[i].key]
    ensures forall i, j :: 0 <= i < j < |visits| ==> Before(visits[i].key, visits[j].key)
    ensures forall k :: k in h.model ==> Entry(k, h.model[k]) in visits
  {
    var keys := CollectKeys(h);
    keys := Sort(keys);
    SortedLists(keys, h.model);
    visits := Report(h, keys);
    forall i, j | 0 <= i < j < |visits| ensures Before(visits[i].key, visits[j].key) {
      LessIff(keys[i], keys[j]);
    }
    forall k | k in h.model ensures Entry(k, h.model[k]) in visits {
      var i :| 0 <= i < |keys| && keys[i] == k;
      assert visits[i] == Entry(k, h.model[k]);
    }
  }

  lemma {:induction false} SortedLists(keys: seq<Bytes>, m: map<Bytes, Value>)
    requires Ascending(keys) && forall k :: k in keys <==> k in m
    ensures Lists(keys, m) && |keys| == |m|
  {
    forall i, j | 0 <= i < j < |keys| ensures keys[i] != keys[j] {
      LessTotal(keys[i], keys[j]);
    }
    ListsSize(keys, m);
  }
}
