/** Octets, octet strings and the few octets the protocols give a meaning to. */
module Bytes {
  import opened Sequences

  newtype byte = x: int | 0 <= x < 256

  type Bytes = seq<byte>

  const CR: byte := 13
  const LF: byte := 10
  const DASH: byte := 45

  const CRLF: Bytes := [CR, LF]
  const DASHES: Bytes := [DASH, DASH]

  /** The octets of a text. */
  ghost predicate Spells(w: Bytes, text: string) {
    |w| == |text| && forall i :: 0 <= i < |w| ==> w[i] as char == text[i]
  }

  lemma {:induction false} Spelling()
    ensures Spells(CRLF, "\r\n") && Spells(DASHES, "--")
  {
  }

  datatype Option<+T> = None | Some(value: T)

  /** `needle` stands in `text` at position `i`. */
  ghost predicate OccursAt(needle: Bytes, text: Bytes, i: int) {
    0 <= i && i + |needle| <= |text| && text[i..i + |needle|] == needle
  }

  ghost predicate Occurs(needle: Bytes, text: Bytes) {
    exists i :: OccursAt(needle, text, i)
  }

  predicate EndsWith(text: Bytes, tail: Bytes) {
    |tail| <= |text| && text[|text| - |tail|..] == tail
  }

  /** The pieces put together. */
  function Joined(pieces: seq<Bytes>): Bytes {
    if pieces == [] then [] else pieces[0] + Joined(pieces[1..])
  }

  lemma {:induction false} JoinedConcat(a: seq<Bytes>, b: seq<Bytes>)
    ensures Joined(a + b) == Joined(a) + Joined(b)
  {
    if a == [] {
      assert a + b == b;
    } else {
      JoinedConcat(a[1..], b);
      assert (a + b)[1..] == a[1..] + b;
      Concat(a[0], Joined(a[1..]), Joined(b));
    }
  }

  lemma {:induction false} JoinedOne(c: Bytes)
    ensures Joined([c]) == c
  {
    assert [c][1..] == [];
    assert Joined([c]) == c + Joined([]);
  }

  lemma {:induction false} JoinedPrefix(pieces: seq<Bytes>, i: nat)
    requires i < |pieces|
    ensures Joined(pieces[..i + 1]) == Joined(pieces[..i]) + pieces[i] && Joined(pieces[..i + 1]) <= Joined(pieces)
  {
    assert pieces[..i + 1] == pieces[..i] + [pieces[i]];
    JoinedConcat(pieces[..i], [pieces[i]]);
    JoinedOne(pieces[i]);
    assert pieces == pieces[..i + 1] + pieces[i + 1..];
    JoinedConcat(pieces[..i + 1], pieces[i + 1..]);
  }
}
