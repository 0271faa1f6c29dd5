/** What a part header leads to: the part it announces, an error, or nothing any more
    when the upload is aborted or has its 64 parts. */
module MultipartHeader {
  import opened Bytes
  import opened Folding
  import opened MultipartMachine
  import opened MultipartProtocol

  /** With its first `n` octets the header has come to its empty line. */
  predicate EndsAt(head: Bytes, n: nat)
    requires n <= |head|
  {
    EndsWith(CRLF + head[..n], HEADER_END)
  }

  ghost predicate Unended(head: Bytes, n: nat)
    requires n <= |head|
  {
    forall m :: 0 < m <= n ==> !EndsAt(head, m)
  }

  /** A header as it stands between the boundary's CRLF and the payload, of any length. */
  ghost predicate HeadEnds(head: Bytes) {
    head != [] && EndsAt(head, |head|) && Unended(head, |head| - 1)
  }

  /** No part is opened any more. */
  predicate Dropping(b: Book) {
    b.aborted || |b.parts| >= 64
  }

  lemma {:induction false} HeaderGrows(head: Bytes, n: nat)
    requires 0 < n <= |head|
    ensures (CRLF + head[..n - 1]) + [head[n - 1]] == CRLF + head[..n]
  {
  }

  /** One octet more behind a boundary. */
  lemma {:induction false} HeaderMore(cfg: Config, c: Core, head: Bytes, n: nat, h: Bytes)
    requires c.phase.AfterBoundary? && 0 < n <= |head|
    requires if n == 1 then h == CRLF else Run(cfg, c, head, 0, n - 1) == OpenHeader(c).(header := h)
    ensures Run(cfg, c, head, 0, n) == HeaderStep(cfg, OpenHeader(c).(header := h), head[n - 1])
  {
    assert Run(cfg, c, head, 0, n) == Step(cfg, Run(cfg, c, head, 0, n - 1), head[n - 1]);
    if n == 1 {
      assert Run(cfg, c, head, 0, 0) == c;
    }
  }

  /** The header is collected octet by octet as long as there is room for it. */
  lemma {:induction false} HeaderRun(cfg: Config, c: Core, head: Bytes, n: nat)
    requires c.phase.AfterBoundary? && 0 < n <= |head| && n <= 8189 && Unended(head, n)
    ensures Run(cfg, c, head, 0, n) == OpenHeader(c).(header := CRLF + head[..n])
    decreases n
  {
    if n > 1 {
      HeaderRun(cfg, c, head, n - 1);
    }
    assert CRLF + head[..0] == CRLF;
    HeaderMore(cfg, c, head, n, CRLF + head[..n - 1]);
    HeaderGrows(head, n);
    assert !EndsAt(head, n);
  }

  /** A complete header that fits its buffer. */
  lemma {:induction false} HeaderExact(cfg: Config, c: Core, head: Bytes)
    requires c.phase.AfterBoundary? && HeadEnds(head) && |head| <= 8189
    ensures var h := CRLF + head;
            RunAll(cfg, c, head) ==
              c.(hold := [], header := h, book := BeginPart(cfg, Limit(c.book), h),
                 phase := if Unreadable(cfg, Limit(c.book), h) then Error else PartData)
  {
    var n := |head|;
    assert n > 1;
    HeaderRun(cfg, c, head, n - 1);
    HeaderMore(cfg, c, head, n, CRLF + head[..n - 1]);
    HeaderGrows(head, n);
    assert head[..n] == head;
  }

  lemma {:induction false} NoRoom(cfg: Config, c: Core, h: Bytes, b: byte)
    requires !Dropping(c.book) && |h| == 8191
    ensures HeaderStep(cfg, OpenHeader(c).(header := h), b) == OpenHeader(c).(header := h, phase := Error)
  {
  }

  lemma {:induction false} HeaderOverflows(cfg: Config, c: Core, head: Bytes, n: nat)
    requires c.phase.AfterBoundary? && !Dropping(c.book) && 8189 < n < 8191 && n <= |head| && Unended(head, n - 1)
    ensures Run(cfg, c, head, 0, n) == OpenHeader(c).(header := CRLF + head[..n - 1], phase := Error)
  {
    var h := CRLF + head[..n - 1];
    HeaderRun(cfg, c, head, n - 1);
    HeaderMore(cfg, c, head, n, h);
    NoRoom(cfg, c, h, head[n - 1]);
  }

  /** One that does not, with nobody to hear of an abort. */
  lemma {:induction false} HeaderTooLong(cfg: Config, c: Core, head: Bytes, n: nat)
    requires c.phase.AfterBoundary? && !Dropping(c.book) && 8189 < n < 8191 && n <= |head| && Unended(head, n - 1)
    ensures RunAll(cfg, c, head) == OpenHeader(c).(header := CRLF + head[..n - 1], phase := Error)
  {
    HeaderOverflows(cfg, c, head, n);
    var d := Run(cfg, c, head, 0, n);
    FoldSplits(Stepper(cfg), c, head, 0, n, |head|);
    FoldStuck(Stepper(cfg), d, head, n, |head|);
  }

  /** What the buffer holds of a text: the end of it, long enough to see the empty line. */
  ghost predicate Tail(h: Bytes, t: Bytes) {
    EndsWith(t, h) && 2 <= |h| < 8192 && (h == t || |h| >= 4)
  }

  lemma {:induction false} TailSeesEnd(h: Bytes, t: Bytes)
    requires Tail(h, t)
    ensures EndsWith(h, HEADER_END) <==> EndsWith(t, HEADER_END)
  {
    if |h| >= 4 {
      assert h[|h| - 4..] == t[|t| - 4..];
    }
  }

  /** What stays of a header that has filled its buffer. */
  function Slid(h: Bytes): Bytes {
    if |h| + 1 >= MAX_PART_HEADER then h[|h| - 3..] else h
  }

  /** The text goes on by an octet. */
  lemma {:induction false} TailMore(h: Bytes, t: Bytes, b: byte)
    requires Tail(h, t)
    ensures Tail(Slid(h) + [b], t + [b])
  {
  }

  /** The header of a part that is dropped goes on by an octet. */
  lemma {:induction false} RunDropped(cfg: Config, c: Core, head: Bytes, n: nat, h: Bytes, g: Bytes)
    requires c.phase.AfterBoundary? && Dropping(c.book) && Closed(c.book) && 0 < n <= |head|
    requires 2 <= |h| < 8192 && g == Slid(h) + [head[n - 1]]
    requires if n == 1 then h == CRLF else Run(cfg, c, head, 0, n - 1) == Skipping(c, h, false)
    ensures Run(cfg, c, head, 0, n) == Skipping(c, g, EndsWith(g, HEADER_END))
  {
    HeaderMore(cfg, c, head, n, h);
    StepDropped(cfg, c, h, head[n - 1], g);
  }

  lemma {:induction false} StepDropped(cfg: Config, c: Core, h: Bytes, b: byte, g: Bytes)
    requires Dropping(c.book) && Closed(c.book) && 2 <= |h| < 8192 && g == Slid(h) + [b]
    ensures HeaderStep(cfg, OpenHeader(c).(header := h), b) == Skipping(c, g, EndsWith(g, HEADER_END))
  {
    var d := OpenHeader(c).(header := h);
    assert HeaderStep(cfg, d, b) ==
      if !EndsWith(g, HEADER_END) then d.(header := g)
      else d.(header := g, book := BeginPart(cfg, d.book, g), phase := if Unreadable(cfg, d.book, g) then Error else PartData);
  }

  /** The state in a header that is dropped, with `h` in the buffer. */
  function Skipping(c: Core, h: Bytes, ends: bool): Core {
    c.(hold := [], header := h, book := c.book.(aborted := true), phase := if ends then PartData else PartHeader)
  }

  /** The buffer still holds a tail of what has come. */
  lemma {:induction false} TailKept(head: Bytes, n: nat, h: Bytes) returns (g: Bytes)
    requires 0 < n <= |head| && Tail(h, CRLF + head[..n - 1])
    ensures g == Slid(h) + [head[n - 1]]
    ensures Tail(g, CRLF + head[..n]) && (EndsWith(g, HEADER_END) <==> EndsAt(head, n))
  {
    g := Slid(h) + [head[n - 1]];
    HeaderGrows(head, n);
    TailMore(h, CRLF + head[..n - 1], head[n - 1]);
    TailSeesEnd(g, CRLF + head[..n]);
  }

  /** The header of a part that is dropped is only read over, however long it is. */
  lemma {:induction false} HeaderSkipped(cfg: Config, c: Core, head: Bytes, n: nat) returns (h: Bytes)
    requires c.phase.AfterBoundary? && Dropping(c.book) && Closed(c.book) && 0 < n <= |head| && Unended(head, n - 1)
    ensures Tail(h, CRLF + head[..n])
    ensures Run(cfg, c, head, 0, n) == Skipping(c, h, EndsAt(head, n))
    decreases n
  {
    var before := CRLF;
    if n > 1 {
      before := HeaderSkipped(cfg, c, head, n - 1);
      assert !EndsAt(head, n - 1);
    } else {
      assert CRLF + head[..0] == CRLF;
    }
    h := TailKept(head, n, before);
    RunDropped(cfg, c, head, n, before, h);
  }

  /** What a header decides: behind an abort or the 64th part it is read over, whatever it
      is; in front of that it is an error if it has 8192 octets or more with the CRLF of the
      boundary or cannot be read, and nothing is heard of it then. */
  lemma {:induction false} HeaderDecides(cfg: Config, c: Core, head: Bytes)
    requires c.phase.AfterBoundary? && Closed(c.book) && HeadEnds(head)
    ensures var r := RunAll(cfg, c, head);
            var dropped := c.book.aborted || |c.book.parts| >= 64;
            var refused := |CRLF + head| >= 8192 || cfg.analyse(CRLF + head).Malformed?;
            && r.phase == (if !dropped && refused then Error else PartData)
            && r.inData == c.inData && r.hold == []
            && (dropped ==> r.book == c.book.(aborted := true))
            && (!dropped && refused ==> r.book == c.book)
  {
    var n := |head|;
    assert head[..n] == head;
    if Dropping(c.book) {
      var h := HeaderSkipped(cfg, c, head, n);
    } else if n > 8189 {
      HeaderTooLong(cfg, c, head, 8190);
    } else {
      HeaderExact(cfg, c, head);
    }
  }
}
