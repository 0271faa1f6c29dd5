/** The response header on its way through the reverse proxy: where it ends, and
    how "Connection: close" is put in force. */
module ProxyHeader {
  import opened Bytes

  const BLANK: byte := 32

  /** "connection:" */
  const NAME: Bytes := [99, 111, 110, 110, 101, 99, 116, 105, 111, 110, 58]
  /** " close" */
  const VALUE: Bytes := [32, 99, 108, 111, 115, 101]
  /** "Connection: close" and CRLF */
  const LINE: Bytes := [67, 111, 110, 110, 101, 99, 116, 105, 111, 110, 58, 32, 99, 108, 111, 115, 101, 13, 10]

  const EMPTY_LINE: Bytes := [CR, LF, CR, LF]

  function Lower(c: byte): byte {
    if 65 <= c <= 90 then c + 32 else c
  }

  function LowerAll(w: Bytes): Bytes {
    seq(|w|, i requires 0 <= i < |w| => Lower(w[i]))
  }

  const CAPITALS := "ABCDEFGHIJKLMNOPQRSTUVWXYZ"
  const SMALL := "abcdefghijklmnopqrstuvwxyz"

  /** Capital letters, and only those, become the small ones. */
  lemma {:induction false} LowerExact(c: byte, i: nat)
    ensures i < 26 && c as char == CAPITALS[i] ==> Lower(c) as char == SMALL[i]
    ensures (forall j :: 0 <= j < 26 ==> c as char != CAPITALS[j]) ==> Lower(c) == c
  {
    if i < 26 {
      assert CAPITALS[i] == (65 + i) as char && SMALL[i] == (97 + i) as char;
    }
    if 65 <= c <= 90 {
      var j := (c - 65) as nat;
      assert CAPITALS[j] == (65 + j) as char;
    }
  }

  lemma {:induction false} Spelling()
    ensures Spells(NAME, "connection:") && Spells(VALUE, " close") && Spells(LINE, "Connection: close\r\n")
    ensures Spells(EMPTY_LINE, "\r\n\r\n") && Spells([BLANK], " ")
  {
  }

  /** The header ends behind its first empty line. */
  method FindHeaderEnd(buffer: Bytes) returns (end: Option<nat>)
    ensures end.None? <==> !Occurs(EMPTY_LINE, buffer)
    ensures end.Some? ==> && 4 <= end.value <= |buffer| && OccursAt(EMPTY_LINE, buffer, end.value - 4)
                          && forall i :: 0 <= i < end.value - 4 ==> !OccursAt(EMPTY_LINE, buffer, i)
  {
    var i := 0;
    while i + 4 <= |buffer|
      invariant 0 <= i
      invariant forall j :: 0 <= j < i ==> !OccursAt(EMPTY_LINE, buffer, j)
    {
      if buffer[i..i + 4] == EMPTY_LINE {
        assert OccursAt(EMPTY_LINE, buffer, i);
        return Some(i + 4);
      }
      i := i + 1;
    }
    end := None;
  }

  // ----- a Connection header in the header -----

  /** A header line other than the first begins at `p`. */
  ghost predicate LineAt(h: Bytes, p: int) {
    0 < p <= |h| && h[p - 1] == LF
  }

  /** A Connection header begins at `p`. */
  ghost predicate ConnectionAt(h: Bytes, p: int) {
    LineAt(h, p) && p + |NAME| <= |h| && LowerAll(h[p..p + |NAME|]) == NAME
  }

  ghost predicate NoConnectionBefore(h: Bytes, p: int) {
    forall i :: i < p ==> !ConnectionAt(h, i)
  }

  /** The value that begins at `v` ends before `e`. */
  ghost predicate ValueEnds(h: Bytes, v: nat, e: nat) {
    && v <= e <= |h|
    && (forall i :: v <= i < e ==> h[i] != CR && h[i] != LF)
    && (e < |h| ==> h[e] == CR || h[e] == LF)
  }

  function Blanks(n: nat): Bytes {
    seq(n, _ => BLANK)
  }

  /** The value between `v` and `e` replaced by " close" and blanks. */
  function Overwritten(h: Bytes, v: nat, e: nat): Bytes
    requires v + |VALUE| <= e <= |h|
  {
    h[..v] + VALUE + Blanks(e - v - |VALUE|) + h[e..]
  }

  /** The line at `p` says "Connection: close", with nothing but blanks behind it. */
  ghost predicate CloseAt(h: Bytes, p: nat, e: nat) {
    var v := p + |NAME|;
    && ConnectionAt(h, p) && ValueEnds(h, v, e) && v + |VALUE| <= e
    && h[v..e] == VALUE + Blanks(e - v - |VALUE|)
  }

  ghost predicate CloseInForce(h: Bytes) {
    exists p, e :: CloseAt(h, p, e)
  }

  /** Where the first line end at or behind `p` leaves the scan. */
  method NextLine(a: array<byte>, len: nat, p: nat) returns (q: nat)
    requires p <= len <= a.Length
    ensures p <= q <= len && (forall i :: p <= i < q ==> a[i] != LF) && (q < len ==> a[q] == LF)
  {
    q := p;
    while q < len && a[q] != LF
      invariant p <= q <= len && (forall i :: p <= i < q ==> a[i] != LF)
    {
      q := q + 1;
    }
  }

  method EndOfValue(a: array<byte>, len: nat, v: nat) returns (e: nat)
    requires v <= len <= a.Length
    ensures ValueEnds(a[..len], v, e)
  {
    e := v;
    while e < len && a[e] != CR && a[e] != LF
      invariant v <= e <= len && forall i :: v <= i < e ==> a[i] != CR && a[i] != LF
    {
      e := e + 1;
    }
  }

  /** Overwrite the value in place. */
  method WriteClose(a: array<byte>, len: nat, v: nat, e: nat)
    requires v + |VALUE| <= e <= len <= a.Length
    modifies a
    ensures a[..len] == Overwritten(old(a[..len]), v, e) && a[len..] == old(a[len..])
  {
    forall i | v <= i < e {
      a[i] := if i < v + |VALUE| then VALUE[i - v] else BLANK;
    }
  }

  lemma {:induction false} NoConnectionInLine(h: Bytes, q: nat, r: nat)
    requires q <= r <= |h| && NoConnectionBefore(h, q) && !ConnectionAt(h, q)
    requires forall i :: q <= i < r ==> h[i] != LF
    ensures NoConnectionBefore(h, r + 1)
  {
  }

  /** The first Connection header, looked for line by line. */
  method FindConnection(a: array<byte>, len: nat) returns (found: Option<nat>)
    requires len <= a.Length
    ensures found.Some? ==> ConnectionAt(a[..len], found.value) && NoConnectionBefore(a[..len], found.value)
    ensures found.None? ==> NoConnectionBefore(a[..len], len + 1)
  {
    var h := a[..len];
    var q := NextLine(a, len, 0);
    NoConnectionInLine(h, 0, q);
    if q < len {
      q := q + 1;
    }
    while q + |NAME| <= len
      invariant q <= len && NoConnectionBefore(h, q)
      invariant q < len ==> q > 0 && h[q - 1] == LF
      decreases len - q
    {
      if LowerAll(h[q..q + |NAME|]) == NAME {
        return Some(q);
      }
      var r := NextLine(a, len, q);
      NoConnectionInLine(h, q, r);
      if r == len {
        return None;
      }
      q := r + 1;
    }
    assert forall i :: q <= i ==> !ConnectionAt(h, i);
    found := None;
  }

  /** The first Connection header of `h` has room for "close" between `v` and `e`. */
  ghost predicate Forcible(h: Bytes, v: nat, e: nat) {
    && |NAME| <= v && ConnectionAt(h, v - |NAME|) && NoConnectionBefore(h, v - |NAME|)
    && ValueEnds(h, v, e) && v + |VALUE| <= e
  }

  /** Set an existing Connection header to "close" without changing any length.
      Fails, changing nothing, if there is none or its value is too short. */
  method ForceConnectionClose(a: array<byte>, len: nat) returns (forced: bool, ghost v: nat, ghost e: nat)
    requires len <= a.Length
    modifies a
    ensures forced ==> Forcible(old(a[..len]), v, e) && a[..len] == Overwritten(old(a[..len]), v, e) && a[len..] == old(a[len..])
    ensures !forced ==> a[..] == old(a[..]) && forall x, y :: !Forcible(a[..len], x, y)
  {
    ghost var h := a[..len];
    var found := FindConnection(a, len);
    forced, v, e := false, 0, 0;
    if found.None? {
      return;
    }
    var from := found.value + |NAME|;
    var end := EndOfValue(a, len, from);
    forall x, y | Forcible(h, x, y) ensures x == from && y == end {
      SameConnection(h, x, y, from, end);
    }
    if end - from < |VALUE| {
      return;
    }
    WriteClose(a, len, from, end);
    forced, v, e := true, from, end;
  }

  lemma {:induction false} SameConnection(h: Bytes, x: nat, y: nat, v: nat, e: nat)
    requires Forcible(h, x, y)
    requires |NAME| <= v && ConnectionAt(h, v - |NAME|) && NoConnectionBefore(h, v - |NAME|) && ValueEnds(h, v, e)
    ensures x == v && y == e
  {
    assert !(x < v) && !(v < x);
  }

  /** An overwritten header has the same length, the same octets elsewhere, and
      closes the connection. */
  lemma {:induction false} OverwrittenCloses(h: Bytes, v: nat, e: nat)
    requires Forcible(h, v, e)
    ensures var r := Overwritten(h, v, e);
            && |r| == |h| && r[..v] == h[..v] && r[e..] == h[e..] && CloseInForce(r)
  {
    var r := Overwritten(h, v, e);
    var p := v - |NAME|;
    assert r[..v] == h[..v];
    assert r[p..v] == r[..v][p..] == h[..v][p..] == h[p..v];
    assert r[p - 1] == h[..v][p - 1];
    assert r[v..e] == VALUE + Blanks(e - v - |VALUE|);
    assert r[e..] == h[e..];
    forall i | v <= i < e ensures r[i] != CR && r[i] != LF {
      assert r[i] == r[v..e][i - v];
    }
    assert CloseAt(r, p, e);
  }

  // ----- a new Connection header -----

  /** The line put in before the empty line that ends the header. */
  function Spliced(h: Bytes): Bytes
    requires |h| >= 2
  {
    h[..|h| - 2] + LINE + CRLF
  }

  /** The header as the client gets it: the first Connection value overwritten, or
      a line put in where that is not possible. */
  ghost predicate ClosingHeader(h: Bytes, r: Bytes) {
    || (exists v, e :: Forcible(h, v, e) && r == Overwritten(h, v, e))
    || ((forall v, e :: !Forcible(h, v, e)) && |h| >= 2 && r == Spliced(h))
  }

  lemma {:induction false} SplicedCloses(h: Bytes)
    requires EndsWith(h, EMPTY_LINE)
    ensures CloseInForce(Spliced(h)) && EndsWith(Spliced(h), EMPTY_LINE)
    ensures |Spliced(h)| == |h| + 19 && Spliced(h)[..|h| - 2] == h[..|h| - 2]
  {
    var r := Spliced(h);
    var p := |h| - 2;
    var v := p + |NAME|;
    var e := v + |VALUE|;
    assert h[|h| - 4..][1] == LF;
    assert r[p - 1] == h[p - 1] == LF;
    assert r[p..v] == LINE[..|NAME|];
    assert LowerAll(LINE[..|NAME|]) == NAME;
    assert r[v..e] == LINE[|NAME|..|NAME| + |VALUE|] == VALUE;
    assert VALUE + Blanks(0) == VALUE;
    assert r[e] == CR;
    forall i | v <= i < e ensures r[i] != CR && r[i] != LF {
      assert r[i] == r[v..e][i - v];
    }
    assert CloseAt(r, p, e);
    assert r[|r| - 4..] == LINE[|LINE| - 2..] + CRLF;
  }

  /** Whichever way it went, the client is told that the connection closes. */
  lemma {:induction false} ClosingHeaderCloses(h: Bytes, r: Bytes)
    requires EndsWith(h, EMPTY_LINE) && ClosingHeader(h, r)
    ensures CloseInForce(r)
  {
    if v, e :| Forcible(h, v, e) && r == Overwritten(h, v, e) {
      OverwrittenCloses(h, v, e);
    } else {
      SplicedCloses(h);
    }
  }

  /** Move a stretch, within one buffer or between two. */
  method Move(source: array<byte>, from: nat, n: nat, target: array<byte>, to: nat)
    requires from + n <= source.Length && to + n <= target.Length
    modifies target
    ensures target[..] == old(target[..to]) + old(source[from..from + n]) + old(target[to + n..])
  {
    forall i | 0 <= i < n {
      target[to + i] := source[from + i];
    }
  }

  method Put(target: array<byte>, to: nat, w: Bytes)
    requires to + |w| <= target.Length
    modifies target
    ensures target[..] == old(target[..to]) + w + old(target[to + |w|..])
  {
    forall i | 0 <= i < |w| {
      target[to + i] := w[i];
    }
  }

  /** The header without its last line end stays in front, the rest moves back. */
  method Part(source: array<byte>, target: array<byte>, pos: nat, end: nat)
    requires 2 <= end <= pos <= source.Length && pos + |LINE| <= target.Length
    modifies target
    ensures target[..end - 2] == old(source[..end - 2])
    ensures target[end + |LINE|..pos + |LINE|] == old(source[end..pos])
  {
    ghost var tail := source[end..pos];
    Move(source, end, pos - end, target, end + |LINE|);
    ghost var t := target[..];
    assert t[end + |LINE|..pos + |LINE|] == tail;
    if source != target {
      Move(source, 0, end - 2, target, 0);
      assert target[..][end + |LINE|..pos + |LINE|] == t[end + |LINE|..pos + |LINE|];
    }
  }

  /** The header and the rest of the buffer moved apart by a new line. */
  method SpliceInto(source: array<byte>, target: array<byte>, pos: nat, end: nat)
    requires 2 <= end <= pos <= source.Length && pos + |LINE| <= target.Length
    modifies target
    ensures target[..end + |LINE|] == Spliced(old(source[..end]))
    ensures target[end + |LINE|..pos + |LINE|] == old(source[end..pos])
  {
    ghost var head := source[..end];
    Part(source, target, pos, end);
    ghost var t := target[..];
    Put(target, end - 2, LINE + CRLF);
    PutBetween(t, target[..], end - 2, LINE + CRLF, pos + |LINE|);
    assert target[..end + |LINE|] == head[..end - 2] + (LINE + CRLF);
    assert head[..end - 2] + (LINE + CRLF) == Spliced(head);
  }

  lemma {:induction false} PutBetween(t: Bytes, u: Bytes, to: nat, w: Bytes, n: nat)
    requires to + |w| <= n <= |t| && u == t[..to] + w + t[to + |w|..]
    ensures u[..to + |w|] == t[..to] + w && u[to + |w|..n] == t[to + |w|..n]
  {
  }

  /** Put "Connection: close" in force in a buffered response. Only the header
      changes; what follows it is kept, moved if a line had to go in. */
  method InjectConnectionClose(buffer: array<byte>, pos: nat, end: nat) returns (buffer': array<byte>, pos': nat, end': nat)
    requires 2 <= end <= pos <= buffer.Length
    modifies buffer
    ensures buffer' == buffer || fresh(buffer')
    ensures end' <= pos' <= buffer'.Length && buffer.Length <= buffer'.Length
    ensures ClosingHeader(old(buffer[..end]), buffer'[..end'])
    ensures buffer'[end'..pos'] == old(buffer[end..pos])
  {
    ghost var head, tail := buffer[..end], buffer[end..pos];
    var forced;
    ghost var v, e;
    forced, v, e := ForceConnectionClose(buffer, end);
    if forced {
      assert buffer[end..pos] == buffer[end..][..pos - end];
      return buffer, pos, end;
    }
    var size := pos + |LINE|;
    buffer' := buffer;
    if size > buffer.Length {
      buffer' := new byte[size + 1024](_ => 0);
    }
    assert buffer[..end] == buffer[..][..end] == head && buffer[end..pos] == buffer[..][end..pos] == tail;
    SpliceInto(buffer, buffer', pos, end);
    pos', end' := size, end + |LINE|;
  }
}
