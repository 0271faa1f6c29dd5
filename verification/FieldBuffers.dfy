/** Entries of the part list with the buffers of form fields: bounded, grown by
    doubling, and never grown again once cut off. */
module FieldBuffers {
  import opened Bytes
  import opened MultipartMachine
  import opened MultipartProtocol

  const MAX_FIELD_SIZE := 65536
  const MAX_FIELDS_TOTAL := 262144

  /** `data` and `capacity` belong to form fields; `copied` counts the octets
      moved by growing the buffer. */
  datatype Entry = Entry(
    isFile: bool,
    name: Bytes,
    length: nat,
    failed: bool,
    truncated: bool,
    data: Bytes,
    capacity: nat,
    copied: nat)

  function ViewOf(e: Entry): Part {
    Part(e.isFile, e.name, if e.isFile then e.length else 0, e.failed)
  }

  /** The list is kept newest first. */
  function View(es: seq<Entry>): seq<Part>
    ensures |View(es)| == |es|
  {
    if es == [] then [] else View(es[1..]) + [ViewOf(es[0])]
  }

  /** The octets buffered for a field; there are none for a file. */
  function FieldLength(e: Entry): nat {
    |e.data|
  }

  function FieldSum(es: seq<Entry>): nat {
    if es == [] then 0 else FieldLength(es[0]) + FieldSum(es[1..])
  }

  /** 256 doubled any number of times. */
  predicate Doubled(n: nat) {
    n == 256 || (n > 256 && n % 2 == 0 && Doubled(n / 2))
  }

  /** The sizes a buffer can have: doubled ones within the limit, or just the
      limit and its terminator. */
  ghost predicate IsCapacity(n: nat) {
    n == MAX_FIELD_SIZE + 1 || (n <= MAX_FIELD_SIZE && Doubled(n))
  }

  /** Room for a terminator, within the limits, and little copied: less than the
      buffer is large, or less than twice the limit for a full-size one. */
  ghost predicate Sound(e: Entry) {
    && (e.isFile ==> e.data == [] && e.capacity == 0 && !e.truncated)
    && (!e.isFile ==> e.length == |e.data| <= MAX_FIELD_SIZE)
    && (e.capacity == 0 ==> e.data == [] && e.copied == 0)
    && (e.capacity != 0 ==> IsCapacity(e.capacity) && |e.data| + 1 <= e.capacity)
    && (e.capacity != 0 && e.capacity <= MAX_FIELD_SIZE ==> e.copied < e.capacity)
    && e.copied < 2 * MAX_FIELD_SIZE
  }

  ghost predicate AllSound(es: seq<Entry>) {
    forall i :: 0 <= i < |es| ==> Sound(es[i])
  }

  /** No doubled size lies strictly between half the limit and the limit. */
  lemma {:induction false} DoubledBelow(n: nat)
    requires Doubled(n) && n > 32768
    ensures n >= 65536
  {
    assert Scale(4) == 4096 && Scale(8) == 65536;
    DoubledGap(n, 8);
  }

  lemma {:induction false} DoubledGap(n: nat, k: nat)
    requires Doubled(n) && k <= 8 && n > Scale(k) / 2
    ensures n >= Scale(k)
    decreases k
  {
    if k > 0 && n != 256 {
      DoubledGap(n / 2, k - 1);
    }
  }

  function Scale(k: nat): (n: nat)
    ensures n >= 256 && n % 2 == 0
  {
    if k == 0 then 256 else 2 * Scale(k - 1)
  }

  /** The new size of a buffer that has to hold `need` octets. */
  method Grow(capacity: nat, need: nat) returns (size: nat)
    requires capacity == 0 || (IsCapacity(capacity) && capacity < need)
    requires 0 < need <= MAX_FIELD_SIZE + 1
    ensures IsCapacity(size) && need <= size
    ensures 2 * capacity <= size || (size == MAX_FIELD_SIZE + 1 && capacity <= MAX_FIELD_SIZE)
    ensures size < 2 * need || size == if capacity == 0 then 256 else 2 * capacity
  {
    size := if capacity == 0 then 256 else capacity * 2;
    while size < need
      invariant Doubled(size) && 2 * capacity <= size && (size > 256 ==> size / 2 < need)
      invariant size < 2 * need || size == if capacity == 0 then 256 else 2 * capacity
      decreases need - size
    {
      TwiceDoubled(size);
      size := size * 2;
    }
    if size > MAX_FIELD_SIZE + 1 {
      HalfDoubled(size);
      size := need;
    }
  }

  lemma {:induction false} TwiceDoubled(n: nat)
    requires Doubled(n)
    ensures Doubled(2 * n) && n >= 256
  {
  }

  /** Beyond the limit, half of a doubled size is the limit at least. */
  lemma {:induction false} HalfDoubled(n: nat)
    requires Doubled(n) && n > MAX_FIELD_SIZE + 1
    ensures n / 2 >= MAX_FIELD_SIZE
  {
    DoubledBelow(n / 2);
  }

  /** Append a piece to the buffer of the open field. `total` is the sum over all
      fields of the request. */
  method Append(e: Entry, d: Bytes, total: nat) returns (r: Entry, sum: nat)
    requires Sound(e) && !e.isFile && d != [] && FieldLength(e) <= total <= MAX_FIELDS_TOTAL
    ensures Sound(r) && ViewOf(r) == ViewOf(e)
    ensures sum == total + |r.data| - |e.data| <= 262144
    ensures e.truncated ==> r == e
    ensures !r.truncated ==> r.data == e.data + d
    ensures r.truncated ==> r.data == e.data
    ensures r.truncated <==> e.truncated || total + |d| > 262144 || |e.data| + |d| > 65536
    ensures r.copied == e.copied + if r.capacity == e.capacity then 0 else |e.data|
    ensures r.capacity != e.capacity <==> !r.truncated && |e.data| + |d| + 1 > e.capacity
    ensures r.capacity != e.capacity ==>
              r.capacity < 2 * (|r.data| + 1) || r.capacity == if e.capacity == 0 then 256 else 2 * e.capacity
  {
    r, sum := e, total;
    if e.truncated {
      return;
    }
    if total + |d| > MAX_FIELDS_TOTAL {
      r := e.(truncated := true);
      return;
    }
    if e.length + |d| > MAX_FIELD_SIZE {
      r := e.(truncated := true);
      return;
    }
    if e.length + |d| + 1 > e.capacity {
      var size := Grow(e.capacity, e.length + |d| + 1);
      r := e.(capacity := size, copied := e.copied + e.length);
    }
    r := r.(data := e.data + d, length := e.length + |d|);
    sum := total + |d|;
  }

  lemma {:induction false} HeadReplaced(es: seq<Entry>, e: Entry)
    requires es != [] && AllSound(es) && Sound(e)
    ensures var r := [e] + es[1..];
            && |r| == |es| && r[0] == e && AllSound(r)
            && View(r) == View(es[1..]) + [ViewOf(e)]
            && View(es) == View(es[1..]) + [ViewOf(es[0])]
            && FieldSum(r) == FieldSum(es) - FieldLength(es[0]) + FieldLength(e)
  {
    assert ([e] + es[1..])[1..] == es[1..];
  }

  lemma {:induction false} HeadAdded(es: seq<Entry>, e: Entry)
    requires AllSound(es) && Sound(e)
    ensures var r := [e] + es;
            && r[0] == e && AllSound(r) && View(r) == View(es) + [ViewOf(e)]
            && FieldSum(r) == FieldSum(es) + FieldLength(e)
  {
    assert ([e] + es)[1..] == es;
  }

  lemma {:induction false} HeadView(es: seq<Entry>)
    requires es != []
    ensures var n := |es| - 1; View(es)[n] == ViewOf(es[0]) && View(es)[..n] == View(es[1..])
  {
  }

  /** The result of a file in its entry, in the list and in the view of it. */
  lemma {:induction false} ResultNoted(es: seq<Entry>, length: nat, failed: bool)
    requires es != [] && AllSound(es) && es[0].isFile
    ensures var e := es[0].(length := length, failed := failed);
            var r := [e] + es[1..];
            var n := |es| - 1;
            && |r| == |es| && r[0] == e && AllSound(r) && FieldSum(r) == FieldSum(es)
            && View(r) == View(es)[..n] + [View(es)[n].(length := length, failed := failed)]
  {
    HeadView(es);
    HeadReplaced(es, es[0].(length := length, failed := failed));
  }

  // ----- the list handed on -----

  /** The list in body order. */
  function Turned(es: seq<Entry>): seq<Entry> {
    if es == [] then [] else Turned(es[1..]) + [es[0]]
  }

  function UploadsOf(es: seq<Entry>): seq<(Bytes, nat)>
    decreases |es|
  {
    if es == [] then []
    else
      var e := es[|es| - 1];
      UploadsOf(es[..|es| - 1]) + if e.isFile && !e.failed && !e.truncated then [(e.name, e.length)] else []
  }

  /** An entry that is handed on is that of a file that did not fail, and every such entry
      is handed on. */
  lemma {:induction false} HandedOnIff(parts: seq<Part>, x: (Bytes, nat))
    ensures x in Kept(Files(parts)) <==> HandedOn(parts, x)
    decreases |parts|
  {
    if parts != [] {
      var n := |parts| - 1;
      var before := parts[..n];
      HandedOnIff(before, x);
      KeptLast(parts);
      if i :| 0 <= i < |before| && IsGood(before[i], x) {
        assert parts[i] == before[i];
      }
      if i :| 0 <= i < |parts| && IsGood(parts[i], x) {
        assert i < n ==> before[i] == parts[i];
      }
    }
  }

  /** The entry is that of a file that did not fail, with that name and length. */
  predicate IsGood(p: Part, x: (Bytes, nat)) {
    p.isFile && !p.failed && x == (p.name, p.length)
  }

  ghost predicate HandedOn(parts: seq<Part>, x: (Bytes, nat)) {
    exists i :: 0 <= i < |parts| && IsGood(parts[i], x)
  }

  lemma {:induction false} AllHandedOn(parts: seq<Part>)
    ensures forall x :: x in Kept(Files(parts)) <==> HandedOn(parts, x)
  {
    forall x ensures x in Kept(Files(parts)) <==> HandedOn(parts, x) {
      HandedOnIff(parts, x);
    }
  }

  /** And they are in the order of the entries. */
  lemma {:induction false} KeptLast(parts: seq<Part>)
    requires parts != []
    ensures var n := |parts| - 1;
            Kept(Files(parts)) ==
            Kept(Files(parts[..n])) + if parts[n].isFile && !parts[n].failed then [(parts[n].name, parts[n].length)] else []
  {
    var n := |parts| - 1;
    var before, f := Files(parts[..n]), Finished(parts[n].name, parts[n].length, !parts[n].failed);
    assert (before + [f])[..|before|] == before;
    assert Kept(before) + [] == Kept(before);
  }

  lemma {:induction false} UploadsTurned(es: seq<Entry>)
    requires AllSound(es)
    ensures UploadsOf(Turned(es)) == Kept(Files(View(es)))
    decreases |es|
  {
    if es != [] {
      UploadsTurned(es[1..]);
      var t, v := Turned(es[1..]), View(es[1..]);
      assert (t + [es[0]])[..|t|] == t;
      assert (v + [ViewOf(es[0])])[..|v|] == v;
      if es[0].isFile {
        var f := Finished(es[0].name, es[0].length, !es[0].failed);
        assert (Files(v) + [f])[..|Files(v)|] == Files(v);
      }
    }
  }
}
