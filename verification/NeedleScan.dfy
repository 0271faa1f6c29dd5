/** The needle search of the multipart receiver, for an arbitrary needle: the
    octet-wise meaning of `scanForNeedle` and what it finds. */
module NeedleScan {
  import opened Bytes

  /** What `rebaseHold` leaves: the longest suffix of `w` that is a prefix of
      `needle`, see SettleLongest. */
  function Settle(needle: Bytes, w: Bytes): (r: Bytes)
    ensures r <= needle && |r| <= |w|
    decreases |w|
  {
    if w <= needle then w else Settle(needle, w[1..])
  }

  lemma {:induction false} SettleSuffix(needle: Bytes, w: Bytes)
    ensures var r := Settle(needle, w); r == w[|w| - |r|..]
    decreases |w|
  {
    if w <= needle {
    } else {
      SettleSuffix(needle, w[1..]);
    }
  }

  lemma {:induction false} SettleLongest(needle: Bytes, w: Bytes, i: nat)
    requires i < |w| - |Settle(needle, w)|
    ensures !(w[i..] <= needle)
    decreases |w|
  {
    if i > 0 {
      SettleLongest(needle, w[1..], i - 1);
      assert w[1..][i - 1..] == w[i..];
    }
  }

  /** Only the settled suffix matters for anything that follows. */
  lemma {:induction false} SettleExtends(needle: Bytes, w: Bytes, v: Bytes)
    ensures Settle(needle, Settle(needle, w) + v) == Settle(needle, w + v)
    decreases |w|
  {
    if w <= needle {
    } else {
      SettleExtends(needle, w[1..], v);
      assert (w + v)[1..] == w[1..] + v;
      assert !(w + v <= needle);
    }
  }

  lemma {:induction false} SettleDrop(needle: Bytes, w: Bytes)
    requires w != [] && |w| <= |needle|
    ensures w != needle[..|w|] ==> Settle(needle, w) == Settle(needle, w[1..])
    ensures w == needle[..|w|] ==> Settle(needle, w) == w
  {
  }

  /** What the search may give out for good. */
  function Sure(needle: Bytes, w: Bytes): Bytes {
    w[..|w| - |Settle(needle, w)|]
  }

  lemma {:induction false} SureAndHeld(needle: Bytes, w: Bytes)
    ensures w == Sure(needle, w) + Settle(needle, w)
  {
    SettleSuffix(needle, w);
  }

  lemma {:induction false} SureExtends(needle: Bytes, w: Bytes, v: Bytes)
    ensures Sure(needle, w + v) == Sure(needle, w) + Sure(needle, Settle(needle, w) + v)
  {
    SureAndHeld(needle, w);
    SettleExtends(needle, w, v);
    assert w + v == Sure(needle, w) + (Settle(needle, w) + v);
  }

  /** The settled suffix is the whole needle exactly when the text ends with it. */
  lemma {:induction false} SettleFull(needle: Bytes, w: Bytes)
    ensures |Settle(needle, w)| == |needle| <==> EndsWith(w, needle)
  {
    var r := Settle(needle, w);
    SettleSuffix(needle, w);
    if EndsWith(w, needle) && |r| < |needle| {
      SettleLongest(needle, w, |w| - |needle|);
    }
  }

  /** After a mismatch the search gives out the first held octet and settles the
      others; for the offending octet that is as good as the full hold. */
  lemma {:induction false} SettleMismatch(needle: Bytes, hold: Bytes, c: byte)
    requires hold <= needle && 0 < |hold| < |needle| && needle[|hold|] != c
    ensures Settle(needle, hold + [c]) == Settle(needle, Settle(needle, hold[1..]) + [c])
  {
    var t := hold + [c];
    assert t[|hold|] == c;
    assert !(t <= needle);
    assert t[1..] == hold[1..] + [c];
    SettleExtends(needle, hold[1..], [c]);
  }

  /** A matching octet extends the hold. */
  lemma {:induction false} SettleMatch(needle: Bytes, hold: Bytes, c: byte)
    requires hold <= needle && |hold| < |needle| && needle[|hold|] == c
    ensures hold + [c] <= needle && Settle(needle, hold + [c]) == hold + [c]
  {
    assert hold + [c] == needle[..|hold| + 1];
  }

  lemma {:induction false} SettleAlien(needle: Bytes, c: byte)
    requires needle != [] && c != needle[0]
    ensures Settle(needle, [c]) == []
  {
    assert !([c] <= needle);
    assert [c][1..] == [];
  }

  /** No prefix of `text` longer than `from` ends with the needle: the search has
      not found anything while it took those octets. */
  ghost predicate Unfound(needle: Bytes, text: Bytes, from: nat) {
    forall k :: from < k <= |text| ==> !EndsWith(text[..k], needle)
  }

  lemma {:induction false} UnfoundPrefix(needle: Bytes, t: Bytes, from: nat, k: nat)
    requires k <= |t|
    ensures Unfound(needle, t[..k], from) <==> forall j :: from < j <= k ==> !EndsWith(t[..j], needle)
  {
    forall j | from < j <= k ensures t[..k][..j] == t[..j] {
    }
  }

  /** An occurrence and a prefix that ends with the needle are the same thing. */
  lemma {:induction false} OccursEnds(needle: Bytes, text: Bytes, k: nat)
    requires |needle| <= k <= |text|
    ensures OccursAt(needle, text, k - |needle|) <==> EndsWith(text[..k], needle)
  {
    assert text[k - |needle|..k] == text[..k][k - |needle|..];
  }

  lemma {:induction false} UnfoundIsAbsent(needle: Bytes, text: Bytes, from: nat)
    requires from < |needle|
    ensures Unfound(needle, text, from) <==> !Occurs(needle, text)
  {
    forall k: nat | |needle| <= k <= |text|
      ensures OccursAt(needle, text, k - |needle|) <==> EndsWith(text[..k], needle)
    {
      OccursEnds(needle, text, k);
    }
    if Occurs(needle, text) {
      var i :| OccursAt(needle, text, i);
      OccursEnds(needle, text, i + |needle|);
      assert EndsWith(text[..i + |needle|], needle);
    }
  }

  // ----- the search in progress -----

  /** `text` has been taken and `out` given out of it; of the octets before `hold`
      none can start the needle any more, whatever `rest` brings. */
  ghost predicate Searching(needle: Bytes, hold: Bytes, text: Bytes, out: Bytes, rest: Bytes) {
    && text == out + hold && hold <= needle && |hold| < |needle|
    && if rest == [] then hold == Settle(needle, text)
       else Settle(needle, hold + [rest[0]]) == Settle(needle, text + [rest[0]])
  }

  lemma {:induction false} SearchSettled(needle: Bytes, hold: Bytes, text: Bytes, out: Bytes, rest: Bytes)
    requires text == out + hold && hold == Settle(needle, text) && |hold| < |needle|
    ensures Searching(needle, hold, text, out, rest)
  {
    if rest != [] {
      SettleExtends(needle, text, [rest[0]]);
    }
  }

  lemma {:induction false} SearchStart(needle: Bytes, hold: Bytes, rest: Bytes)
    requires hold <= needle && |hold| < |needle|
    ensures Searching(needle, hold, hold, [], rest) && Unfound(needle, hold, |hold|)
  {
    assert [] + hold == hold;
    assert Settle(needle, hold) == hold;
    SearchSettled(needle, hold, hold, [], rest);
  }

  lemma {:induction false} UnfoundMore(needle: Bytes, text: Bytes, b: byte, from: nat)
    requires Unfound(needle, text, from) && !EndsWith(text + [b], needle)
    ensures Unfound(needle, text + [b], from)
  {
    var t := text + [b];
    assert t[..|t|] == t;
    forall k | from < k <= |text| ensures t[..k] == text[..k] {
    }
  }

  lemma {:induction false} SearchMatch(needle: Bytes, hold: Bytes, text: Bytes, out: Bytes, rest: Bytes, from: nat)
    requires Searching(needle, hold, text, out, rest) && Unfound(needle, text, from)
    requires rest != [] && needle[|hold|] == rest[0]
    ensures text + [rest[0]] == out + (hold + [rest[0]]) && hold + [rest[0]] <= needle
    ensures |hold| + 1 < |needle| ==>
              && Searching(needle, hold + [rest[0]], text + [rest[0]], out, rest[1..])
              && Unfound(needle, text + [rest[0]], from)
  {
    var b := rest[0];
    SettleMatch(needle, hold, b);
    assert text + [b] == out + (hold + [b]);
    if |hold| + 1 < |needle| {
      SearchSettled(needle, hold + [b], text + [b], out, rest[1..]);
      SettleFull(needle, text + [b]);
      UnfoundMore(needle, text, b, from);
    }
  }

  lemma {:induction false} Regroup(out: Bytes, hold: Bytes, s: Bytes, h: Bytes)
    requires hold != [] && hold[1..] == s + h
    ensures out + hold == (out + ([hold[0]] + s)) + h
  {
    assert hold == [hold[0]] + (s + h);
  }

  lemma {:induction false} SearchMismatch(needle: Bytes, hold: Bytes, text: Bytes, out: Bytes, rest: Bytes)
    requires Searching(needle, hold, text, out, rest)
    requires rest != [] && hold != [] && needle[|hold|] != rest[0]
    ensures Searching(needle, Settle(needle, hold[1..]), text, out + ([hold[0]] + Sure(needle, hold[1..])), rest)
  {
    var g := hold[1..];
    var s, h := Sure(needle, g), Settle(needle, g);
    SettleMismatch(needle, hold, rest[0]);
    SureAndHeld(needle, g);
    Regroup(out, hold, s, h);
  }

  lemma {:induction false} SearchPass(needle: Bytes, text: Bytes, out: Bytes, rest: Bytes, from: nat)
    requires Searching(needle, [], text, out, rest) && Unfound(needle, text, from)
    requires rest != [] && needle[0] != rest[0]
    ensures Searching(needle, [], text + [rest[0]], out + [rest[0]], rest[1..])
    ensures Unfound(needle, text + [rest[0]], from)
  {
    var b := rest[0];
    assert [] + [b] == [b];
    SettleAlien(needle, b);
    assert text + [b] == (out + [b]) + [];
    SearchSettled(needle, [], text + [b], out + [b], rest[1..]);
    SettleFull(needle, text + [b]);
    UnfoundMore(needle, text, b, from);
  }

  /** The octets `memchr` skips. */
  lemma {:induction false} SearchSkip(needle: Bytes, text: Bytes, out: Bytes, skip: Bytes, rest: Bytes, from: nat)
    requires Searching(needle, [], text, out, skip + rest) && Unfound(needle, text, from)
    requires forall i :: 0 <= i < |skip| ==> skip[i] != needle[0]
    ensures Searching(needle, [], text + skip, out + skip, rest)
    ensures Unfound(needle, text + skip, from)
    decreases |skip|
  {
    if skip == [] {
      assert skip + rest == rest && text + skip == text && out + skip == out;
    } else {
      SearchPass(needle, text, out, skip + rest, from);
      assert (skip + rest)[1..] == skip[1..] + rest;
      SearchSkip(needle, text + [skip[0]], out + [skip[0]], skip[1..], rest, from);
      assert (text + [skip[0]]) + skip[1..] == text + skip;
      assert (out + [skip[0]]) + skip[1..] == out + skip;
    }
  }

  /** The search after the octets data[pos..p] have been held back: still on its
      way, or at the needle's end for the first time. */
  ghost predicate Filled(needle: Bytes, hold: Bytes, text: Bytes, out: Bytes, data: Bytes, pos: nat, p: nat, from: nat)
    requires pos <= p <= |data|
  {
    if |hold| < |needle| then
      && Searching(needle, hold, text + data[pos..p], out, data[p..])
      && Unfound(needle, text + data[pos..p], from)
    else
      && pos < p && hold == needle
      && text + data[pos..p] == out + needle
      && Unfound(needle, text + data[pos..p - 1], from)
  }

  lemma {:induction false} FillMore(needle: Bytes, hold: Bytes, text: Bytes, out: Bytes, data: Bytes, pos: nat, p: nat, from: nat)
    requires pos <= p < |data| && |hold| < |needle| && data[p] == needle[|hold|]
    requires Filled(needle, hold, text, out, data, pos, p, from)
    ensures Filled(needle, hold + [data[p]], text, out, data, pos, p + 1, from)
  {
    var t, rest := text + data[pos..p], data[p..];
    SearchMatch(needle, hold, t, out, rest, from);
    assert rest[1..] == data[p + 1..];
    assert t + [rest[0]] == text + data[pos..p + 1];
  }

  lemma {:induction false} FillStart(needle: Bytes, hold: Bytes, data: Bytes, pos: nat)
    requires pos <= |data| && hold <= needle && |hold| < |needle|
    ensures Filled(needle, hold, hold, [], data, pos, pos, |hold|)
  {
    SearchStart(needle, hold, data[pos..]);
    assert hold + data[pos..pos] == hold;
  }

  lemma {:induction false} FillSkip(needle: Bytes, text: Bytes, out: Bytes, data: Bytes, pos: nat, p: nat, k: nat, from: nat)
    requires pos <= p <= k <= |data| && needle != []
    requires Filled(needle, [], text, out, data, pos, p, from)
    requires forall i :: p <= i < k ==> data[i] != needle[0]
    ensures Filled(needle, [], text, out + data[p..k], data, pos, k, from)
  {
    var t := text + data[pos..p];
    assert data[p..] == data[p..k] + data[k..];
    SearchSkip(needle, t, out, data[p..k], data[k..], from);
    assert t + data[p..k] == text + data[pos..k];
  }

  lemma {:induction false} FillBack(needle: Bytes, hold: Bytes, text: Bytes, out: Bytes, data: Bytes, pos: nat, p: nat, from: nat)
    requires pos <= p < |data| && 0 < |hold| < |needle| && data[p] != needle[|hold|]
    requires Filled(needle, hold, text, out, data, pos, p, from)
    ensures Filled(needle, Settle(needle, hold[1..]), text, out + ([hold[0]] + Sure(needle, hold[1..])), data, pos, p, from)
  {
    SearchMismatch(needle, hold, text + data[pos..p], out, data[p..]);
  }

  /** Payload exactness of a finished search over data[pos..], begun with `before`
      held: it stops at the first occurrence of the needle, or takes everything
      and keeps the longest end that may still become the needle; `out` is all
      the rest. */
  ghost predicate Scanned(needle: Bytes, before: Bytes, hold: Bytes, out: Bytes, data: Bytes, pos: nat, p: nat, found: bool)
    requires pos <= p <= |data|
  {
    if found then
      && hold == [] && pos < p
      && before + data[pos..p] == out + needle
      && Unfound(needle, before + data[pos..p - 1], |before|)
    else
      && p == |data| && |hold| < |needle|
      && before + data[pos..p] == out + hold
      && hold == Settle(needle, before + data[pos..p])
      && Unfound(needle, before + data[pos..p], |before|)
  }

  lemma {:induction false} FillEnd(needle: Bytes, before: Bytes, hold: Bytes, out: Bytes, data: Bytes, pos: nat, p: nat)
    requires pos <= p <= |data| && |hold| <= |needle| && (|hold| == |needle| || p == |data|)
    requires Filled(needle, hold, before, out, data, pos, p, |before|)
    ensures |hold| < |needle| ==> Scanned(needle, before, hold, out, data, pos, p, false)
    ensures |hold| == |needle| ==> Scanned(needle, before, [], out, data, pos, p, true)
  {
  }
}
