/** Lists through pointers, with the memory as one map per pointer field: which
    sequence a chain of pointers spells, and how it changes with the pointers. */
module LinkedLists {
  import opened Bytes
  import opened Sequences

  /** An object in memory. */
  type Id = nat

  type Field = map<Id, Option<Id>>

  function At(s: seq<Id>, i: int): Option<Id> {
    if 0 <= i < |s| then Some(s[i]) else None
  }

  ghost function Without(s: seq<Id>, k: nat): seq<Id>
    requires k < |s|
  {
    s[..k] + s[k + 1..]
  }

  /** From `head`, the field `next` leads through exactly the objects of `s`. */
  ghost predicate Chained(next: Field, head: Option<Id>, s: seq<Id>) {
    && Distinct(s) && head == At(s, 0)
    && forall i {:trigger s[i] in next} {:trigger next[s[i]]} ::
         0 <= i < |s| ==> s[i] in next && next[s[i]] == At(s, i + 1)
  }

  /** The field `prev` leads back through `s`. */
  ghost predicate Backward(prev: Field, s: seq<Id>) {
    forall i {:trigger s[i] in prev} {:trigger prev[s[i]]} ::
      0 <= i < |s| ==> s[i] in prev && prev[s[i]] == At(s, i - 1)
  }

  /** A list in both directions. */
  ghost predicate Linked(prev: Field, next: Field, head: Option<Id>, s: seq<Id>) {
    Chained(next, head, s) && Backward(prev, s)
  }

  lemma {:induction false} WithoutIndex(s: seq<Id>, k: nat, i: nat)
    requires k < |s| && i < |s| - 1
    ensures Without(s, k)[i] == if i < k then s[i] else s[i + 1]
  {
  }

  lemma {:induction false} WithoutHas(s: seq<Id>, k: nat, x: Id)
    requires k < |s| && Distinct(s)
    ensures x in Without(s, k) <==> x in s && x != s[k]
  {
    if x in s && x != s[k] {
      var i :| 0 <= i < |s| && s[i] == x;
      WithoutIndex(s, k, if i < k then i else i - 1);
      assert Without(s, k)[if i < k then i else i - 1] == x;
    }
    if x in Without(s, k) {
      var i :| 0 <= i < |s| - 1 && Without(s, k)[i] == x;
      WithoutIndex(s, k, i);
    }
  }

  lemma {:induction false} WithoutDistinct(s: seq<Id>, k: nat)
    requires k < |s| && Distinct(s)
    ensures Distinct(Without(s, k))
  {
    var r := Without(s, k);
    forall i, j | 0 <= i < j < |r| ensures r[i] != r[j] {
      WithoutIndex(s, k, i);
      WithoutIndex(s, k, j);
    }
  }

  lemma {:induction false} ChainPush(next: Field, head: Option<Id>, s: seq<Id>, g: Id)
    requires Chained(next, head, s) && g !in s
    ensures Chained(next[g := head], Some(g), [g] + s)
  {
  }

  lemma {:induction false} ChainSame(next: Field, next': Field, head: Option<Id>, s: seq<Id>)
    requires Chained(next, head, s)
    requires forall x :: x in s ==> x in next' && next'[x] == next[x]
    ensures Chained(next', head, s)
  {
  }

  /** The chain without its element `k`: its predecessor, or the head, is redirected. */
  lemma {:induction false} ChainCut(next: Field, head: Option<Id>, s: seq<Id>, k: nat)
    requires Chained(next, head, s) && k < |s|
    ensures if k == 0 then Chained(next, next[s[0]], Without(s, 0))
            else Chained(next[s[k - 1] := next[s[k]]], head, Without(s, k))
  {
    var r := Without(s, k);
    WithoutDistinct(s, k);
    var next' := if k == 0 then next else next[s[k - 1] := next[s[k]]];
    forall i | 0 <= i < |r| ensures r[i] in next' && next'[r[i]] == At(r, i + 1) {
      WithoutIndex(s, k, i);
      if i + 1 < |r| {
        WithoutIndex(s, k, i + 1);
      }
    }
    if |r| > 0 {
      WithoutIndex(s, k, 0);
    }
  }

  /** A new element in front of a doubly linked list. */
  lemma {:induction false} LinkPush(prev: Field, next: Field, head: Option<Id>, s: seq<Id>, x: Id)
    requires Linked(prev, next, head, s) && x !in s
    ensures Linked(PushPrev(prev, head, x), next[x := head], Some(x), [x] + s)
  {
    ChainPush(next, head, s, x);
  }

  lemma {:induction false} LinkSame(prev: Field, next: Field, prev': Field, next': Field, head: Option<Id>, s: seq<Id>)
    requires Linked(prev, next, head, s)
    requires forall x :: x in s ==> x in next' && next'[x] == next[x] && x in prev' && prev'[x] == prev[x]
    ensures Linked(prev', next', head, s)
  {
    ChainSame(next, next', head, s);
  }

  /** What unlinking an element does to the fields and the head of its list. */
  function CutNext(prev: Field, next: Field, x: Id): Field
    requires x in prev && x in next
  {
    (if prev[x].Some? then next[prev[x].value := next[x]] else next)[x := None]
  }

  function CutPrev(prev: Field, next: Field, x: Id): Field
    requires x in prev && x in next
  {
    (if next[x].Some? then prev[next[x].value := prev[x]] else prev)[x := None]
  }

  /** The backward pointers when element `k` goes: its successor points to its predecessor. */
  lemma {:induction false} BackCut(prev: Field, s: seq<Id>, k: nat)
    requires Distinct(s) && k < |s| && Backward(prev, s)
    ensures Backward(if k + 1 < |s| then prev[s[k + 1] := At(s, k - 1)] else prev, Without(s, k))
  {
    var r := Without(s, k);
    var p := if k + 1 < |s| then prev[s[k + 1] := At(s, k - 1)] else prev;
    forall i | 0 <= i < |r| ensures r[i] in p && p[r[i]] == At(r, i - 1) {
      WithoutIndex(s, k, i);
      if i > 0 {
        WithoutIndex(s, k, i - 1);
      }
      if i < k {
        assert k + 1 < |s| ==> s[i] != s[k + 1];
      } else if i > k {
        assert s[i + 1] != s[k + 1];
      }
    }
  }

  /** An element taken out of a doubly linked list, wherever it stands. */
  lemma {:induction false} LinkCut(prev: Field, next: Field, head: Option<Id>, s: seq<Id>, k: nat)
    requires Linked(prev, next, head, s) && k < |s|
    ensures var x := s[k];
            Linked(CutPrev(prev, next, x), CutNext(prev, next, x), if prev[x].None? then next[x] else head, Without(s, k))
  {
    var x, r := s[k], Without(s, k);
    assert next[x] == At(s, k + 1) && prev[x] == At(s, k - 1);
    WithoutHas(s, k, x);
    ChainCut(next, head, s, k);
    var n := if k == 0 then next else next[s[k - 1] := next[x]];
    var h := if k == 0 then next[x] else head;
    assert Chained(n, h, r);
    ChainSame(n, CutNext(prev, next, x), h, r);
    BackCut(prev, s, k);
    var p := if k + 1 < |s| then prev[s[k + 1] := At(s, k - 1)] else prev;
    BackSame(p, CutPrev(prev, next, x), r);
  }

  lemma {:induction false} BackSame(prev: Field, prev': Field, s: seq<Id>)
    requires Backward(prev, s)
    requires forall x :: x in s ==> x in prev' && prev'[x] == prev[x]
    ensures Backward(prev', s)
  {
  }

  /** Several lists through one pointer field, no two sharing an object. */
  ghost predicate Forest(next: Field, heads: seq<Option<Id>>, lists: seq<seq<Id>>) {
    && |heads| == |lists|
    && (forall b :: 0 <= b < |lists| ==> Chained(next, heads[b], lists[b]))
    && forall a, b, x :: 0 <= a < |lists| && 0 <= b < |lists| && x in lists[a] && x in lists[b] ==> a == b
  }

  lemma {:induction false} ForestPush(next: Field, heads: seq<Option<Id>>, lists: seq<seq<Id>>, b: nat, g: Id)
    requires Forest(next, heads, lists) && b < |lists|
    requires forall a :: 0 <= a < |lists| ==> g !in lists[a]
    ensures Forest(next[g := heads[b]], heads[b := Some(g)], lists[b := [g] + lists[b]])
  {
    ChainPush(next, heads[b], lists[b], g);
    forall a | 0 <= a < |lists| && a != b ensures Chained(next[g := heads[b]], heads[a], lists[a]) {
      ChainSame(next, next[g := heads[b]], heads[a], lists[a]);
    }
  }

  lemma {:induction false} ForestCut(next: Field, heads: seq<Option<Id>>, lists: seq<seq<Id>>, b: nat, k: nat)
    requires Forest(next, heads, lists) && b < |lists| && k < |lists[b]|
    ensures var s := lists[b];
            if k == 0 then Forest(next, heads[b := next[s[0]]], lists[b := Without(s, 0)])
            else Forest(next[s[k - 1] := next[s[k]]], heads, lists[b := Without(s, k)])
  {
    var s := lists[b];
    ChainCut(next, heads[b], s, k);
    forall x ensures x in Without(s, k) ==> x in s {
      WithoutHas(s, k, x);
    }
    var next' := if k == 0 then next else next[s[k - 1] := next[s[k]]];
    forall a | 0 <= a < |lists| && a != b ensures Chained(next', heads[a], lists[a]) {
      assert k > 0 ==> s[k - 1] in lists[b];
      ChainSame(next, next', heads[a], lists[a]);
    }
  }

  /** Doubly linked lists, one for each owner. */
  ghost predicate AllLinked(prev: Field, next: Field, heads: Field, lists: map<Id, seq<Id>>) {
    forall g :: g in lists ==> g in heads && Linked(prev, next, heads[g], lists[g])
  }

  /** The field `owner` says which list an object is in. */
  ghost predicate Owned(owner: Field, lists: map<Id, seq<Id>>) {
    && (forall g, x :: g in lists && x in lists[g] ==> OwnedBy(owner, x, g))
    && (forall x, g :: OwnedBy(owner, x, g) ==> g in lists && x in lists[g])
  }

  ghost predicate OwnedBy(owner: Field, x: Id, g: Id) {
    x in owner && owner[x] == Some(g)
  }

  function PushPrev(prev: Field, head: Option<Id>, x: Id): Field {
    var p := prev[x := None];
    if head.Some? then p[head.value := Some(x)] else p
  }

  lemma {:induction false} PushOther(prev: Field, next: Field, heads: Field, lists: map<Id, seq<Id>>, g: Id, h: Id, x: Id)
    requires AllLinked(prev, next, heads, lists) && g in lists && h in lists
    requires x !in lists[h] && forall y :: y in lists[h] ==> y !in lists[g]
    ensures Linked(PushPrev(prev, heads[g], x), next[x := heads[g]], heads[h], lists[h])
  {
    assert Linked(prev, next, heads[g], lists[g]) && Linked(prev, next, heads[h], lists[h]);
    assert heads[g].Some? ==> heads[g].value == lists[g][0] && heads[g].value in lists[g];
    forall y | y in lists[h] ensures y in prev && y in next {
      InFields(prev, next, heads[h], lists[h], y);
    }
    LinkSame(prev, next, PushPrev(prev, heads[g], x), next[x := heads[g]], heads[h], lists[h]);
  }

  lemma {:induction false} Apart(owner: Field, lists: map<Id, seq<Id>>, g: Id, h: Id)
    requires Owned(owner, lists) && g in lists && h in lists && g != h
    ensures forall y :: y in lists[h] ==> y !in lists[g]
  {
    forall y | y in lists[h] ensures y !in lists[g] {
      assert OwnedBy(owner, y, h) && !OwnedBy(owner, y, g);
    }
  }

  lemma {:induction false} AllPush(owner: Field, prev: Field, next: Field, heads: Field, lists: map<Id, seq<Id>>, g: Id, x: Id)
    requires AllLinked(prev, next, heads, lists) && Owned(owner, lists) && g in lists
    requires x in owner ==> owner[x].None?
    ensures AllLinked(PushPrev(prev, heads[g], x), next[x := heads[g]], heads[g := Some(x)], lists[g := [x] + lists[g]])
  {
    assert x !in lists[g] && Linked(prev, next, heads[g], lists[g]);
    LinkPush(prev, next, heads[g], lists[g], x);
    forall h | h in lists && h != g ensures Linked(PushPrev(prev, heads[g], x), next[x := heads[g]], heads[h], lists[h]) {
      Apart(owner, lists, g, h);
      PushOther(prev, next, heads, lists, g, h, x);
    }
  }

  lemma {:induction false} OwnedPush(owner: Field, lists: map<Id, seq<Id>>, g: Id, x: Id)
    requires Owned(owner, lists) && g in lists && (x in owner ==> owner[x].None?)
    ensures Owned(owner[x := Some(g)], lists[g := [x] + lists[g]])
  {
    var o, l := owner[x := Some(g)], lists[g := [x] + lists[g]];
    forall y, h ensures h in l && y in l[h] <==> OwnedBy(o, y, h) {
      assert h in lists && y in lists[h] <==> OwnedBy(owner, y, h);
    }
  }

  lemma {:induction false} CutOther(prev: Field, next: Field, heads: Field, lists: map<Id, seq<Id>>, g: Id, k: nat, h: Id)
    requires AllLinked(prev, next, heads, lists) && g in lists && h in lists && k < |lists[g]|
    requires forall y :: y in lists[h] ==> y !in lists[g]
    ensures var x := lists[g][k];
            && x in prev && x in next
            && Linked(CutPrev(prev, next, x), CutNext(prev, next, x), heads[h], lists[h])
  {
    var s := lists[g];
    var x := s[k];
    assert Linked(prev, next, heads[g], s) && Linked(prev, next, heads[h], lists[h]);
    assert next[x] == At(s, k + 1) && prev[x] == At(s, k - 1);
    assert x in s && (prev[x].Some? ==> prev[x].value in s) && (next[x].Some? ==> next[x].value in s);
    forall y | y in lists[h] ensures y in prev && y in next {
      InFields(prev, next, heads[h], lists[h], y);
    }
    LinkSame(prev, next, CutPrev(prev, next, x), CutNext(prev, next, x), heads[h], lists[h]);
  }

  lemma {:induction false} AllCut(owner: Field, prev: Field, next: Field, heads: Field, lists: map<Id, seq<Id>>, g: Id, k: nat)
    requires AllLinked(prev, next, heads, lists) && Owned(owner, lists) && g in lists && k < |lists[g]|
    ensures var x := lists[g][k];
            && x in prev && x in next
            && AllLinked(CutPrev(prev, next, x), CutNext(prev, next, x),
                         if prev[x].None? then heads[g := next[x]] else heads, lists[g := Without(lists[g], k)])
  {
    var x := lists[g][k];
    assert Linked(prev, next, heads[g], lists[g]) && x in prev && x in next;
    LinkCut(prev, next, heads[g], lists[g], k);
    forall h | h in lists && h != g ensures Linked(CutPrev(prev, next, x), CutNext(prev, next, x), heads[h], lists[h]) {
      Apart(owner, lists, g, h);
      CutOther(prev, next, heads, lists, g, k, h);
    }
  }

  lemma {:induction false} InFields(prev: Field, next: Field, head: Option<Id>, s: seq<Id>, x: Id)
    requires Linked(prev, next, head, s) && x in s
    ensures x in prev && x in next
  {
    var i :| 0 <= i < |s| && s[i] == x;
  }

  lemma {:induction false} OwnedCut(owner: Field, lists: map<Id, seq<Id>>, g: Id, k: nat)
    requires Owned(owner, lists) && g in lists && k < |lists[g]| && Distinct(lists[g])
    ensures Owned(owner[lists[g][k] := None], lists[g := Without(lists[g], k)])
  {
    var s := lists[g];
    var o, l := owner[s[k] := None], lists[g := Without(s, k)];
    assert OwnedBy(owner, s[k], g);
    forall y, h ensures h in l && y in l[h] <==> OwnedBy(o, y, h) {
      WithoutHas(s, k, y);
      assert h in lists && y in lists[h] <==> OwnedBy(owner, y, h);
    }
  }

  /** An owner with an empty list, or a new one, starts over. */
  lemma {:induction false} AllClear(prev: Field, next: Field, heads: Field, lists: map<Id, seq<Id>>, g: Id)
    requires AllLinked(prev, next, heads, lists)
    ensures AllLinked(prev, next, heads[g := None], lists[g := []])
  {
    forall h | h in lists && h != g ensures Linked(prev, next, heads[h], lists[h]) {
    }
    assert Linked(prev, next, None, []);
  }

  lemma {:induction false} OwnedClear(owner: Field, lists: map<Id, seq<Id>>, g: Id)
    requires Owned(owner, lists) && (g in lists ==> lists[g] == [])
    ensures Owned(owner, lists[g := []])
  {
    var l := lists[g := []];
    forall y, h ensures h in l && y in l[h] <==> OwnedBy(owner, y, h) {
      assert h in lists && y in lists[h] <==> OwnedBy(owner, y, h);
    }
  }

  /** What appending an element behind `tail` does to the forward pointers. */
  function AppendNext(next: Field, tail: Option<Id>, x: Id): Field {
    var n := next[x := None];
    if tail.Some? then n[tail.value := Some(x)] else n
  }

  lemma {:induction false} ChainAppend(next: Field, head: Option<Id>, s: seq<Id>, x: Id)
    requires Chained(next, head, s) && x !in s
    ensures Chained(AppendNext(next, At(s, |s| - 1), x), if s == [] then Some(x) else head, s + [x])
  {
    var r, n := s + [x], AppendNext(next, At(s, |s| - 1), x);
    forall i | 0 <= i < |r| ensures r[i] in n && n[r[i]] == At(r, i + 1) {
      AppendAt(next, s, x, i);
    }
  }

  lemma {:induction false} AppendAt(next: Field, s: seq<Id>, x: Id, i: nat)
    requires Distinct(s) && x !in s && i <= |s| && (i < |s| ==> s[i] in next && next[s[i]] == At(s, i + 1))
    ensures var r, n := s + [x], AppendNext(next, At(s, |s| - 1), x);
            r[i] in n && n[r[i]] == At(r, i + 1)
  {
    if i < |s| - 1 {
      assert s[i] != s[|s| - 1] && s[i] != x;
    } else if i == |s| - 1 {
      assert (s + [x])[i + 1] == x;
    }
  }

  /** A new element at the end of a doubly linked list. */
  lemma {:induction false} LinkAppend(prev: Field, next: Field, head: Option<Id>, s: seq<Id>, x: Id)
    requires Linked(prev, next, head, s) && x !in s
    ensures var tail := At(s, |s| - 1);
            Linked(prev[x := tail], AppendNext(next, tail, x), if s == [] then Some(x) else head, s + [x])
  {
    ChainAppend(next, head, s, x);
    BackAppend(prev, s, x);
  }

  lemma {:induction false} BackAppend(prev: Field, s: seq<Id>, x: Id)
    requires Backward(prev, s) && x !in s
    ensures Backward(prev[x := At(s, |s| - 1)], s + [x])
  {
    var r, p := s + [x], prev[x := At(s, |s| - 1)];
    forall i | 0 <= i < |r| ensures r[i] in p && p[r[i]] == At(r, i - 1) {
      if i < |s| {
        assert s[i] in prev && s[i] in s;
      }
    }
  }
}
