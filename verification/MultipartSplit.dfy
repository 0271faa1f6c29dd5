/** Independence of the cuts: what the trace without its cuts depends on, and that the
    machine may be fed in any pieces. */
module MultipartSplit {
  import opened Bytes
  import opened NeedleScan
  import opened Folding
  import opened MultipartMachine
  import opened MultipartProtocol

  lemma {:induction false} PushTwice(t: Trace, a: Bytes, b: Bytes)
    ensures Push(Push(t, Chunk(a)), Chunk(b)) == Push(t, Chunk(a + b))
  {
    if t != [] && t[|t| - 1].Chunk? {
      var d := t[|t| - 1].data;
      assert (d + a) + b == d + (a + b);
      var front := t[..|t| - 1];
      assert (front + [Chunk(d + a)])[..|front|] == front;
    } else {
      assert (t + [Chunk(a)])[..|t|] == t;
    }
  }

  /** Two chunks in a row are one. */
  lemma {:induction false} PassTwice(cfg: Config, b: Book, d: Bytes, e: Bytes)
    ensures Pass(cfg, Pass(cfg, b, d), e) == Pass(cfg, b, d + e)
  {
    PushTwice(b.events, d, e);
    assert (b.payload + d) + e == b.payload + (d + e);
    if d == [] {
      assert d + e == e;
    } else if e == [] {
      assert d + e == d;
    }
  }

  lemma {:induction false} NormalNote(b: Book, success: bool)
    ensures Normal(NoteEnd(b, success)) == NoteEnd(Normal(b), success)
  {
  }

  lemma {:induction false} PassShape(cfg: Config, b: Book, d: Bytes)
    requires Shape(cfg, b)
    ensures Shape(cfg, Pass(cfg, b, d))
  {
  }

  lemma {:induction false} HeaderPlaced(cfg: Config, c: Core, b: byte)
    requires Placed(cfg, c) && c.phase.PartHeader?
    ensures Placed(cfg, HeaderStep(cfg, c, b))
  {
    var kept := if |c.header| + 1 >= MAX_PART_HEADER then c.header[|c.header| - 3..] else c.header;
    BeginShape(cfg, c.book, kept + [b]);
  }

  lemma {:induction false} ResolvePlaced(cfg: Config, c: Core, t: Bytes)
    requires Placed(cfg, c) && c.phase.DelimCheck? && |t| == 2
    ensures Placed(cfg, Resolve(cfg, c, t))
  {
    EndShape(cfg, c.book, true);
    PassShape(cfg, c.book, cfg.Delim());
    PassShape(cfg, Pass(cfg, c.book, cfg.Delim()), Sure(cfg.Delim(), t));
  }

  lemma {:induction false} StepPlaced(cfg: Config, c: Core, b: byte)
    requires Placed(cfg, c)
    ensures Placed(cfg, Step(cfg, c, b))
  {
    match c.phase
    case Preamble =>
    case AfterBoundary => HeaderPlaced(cfg, OpenHeader(c), b);
    case PartHeader => HeaderPlaced(cfg, c, b);
    case PartData => PassShape(cfg, c.book, Sure(cfg.Delim(), c.hold + [b]));
    case DelimCheck =>
      if |c.hold| == 1 {
        ResolvePlaced(cfg, c, c.hold + [b]);
      }
    case Epilogue =>
    case Error =>
  }

  lemma {:induction false} RunPlaced(cfg: Config, c: Core, data: Bytes, lo: nat, hi: nat)
    requires lo <= hi <= |data| && Placed(cfg, c)
    ensures Placed(cfg, Run(cfg, c, data, lo, hi))
    decreases hi
  {
    if lo < hi {
      RunPlaced(cfg, c, data, lo, hi - 1);
      StepPlaced(cfg, Run(cfg, c, data, lo, hi - 1), data[hi - 1]);
    }
  }

  /** The book of a body that has broken off inside a file: the handler hears that the file
      failed, and its entry, with the octets received, is one that failed. */
  ghost predicate BrokenOff(b: Book, b': Book) {
    var n := |b.parts| - 1;
    && n >= 0
    && b'.events == b.events + [End(false)]
    && b'.parts == b.parts[..n] + [Part(true, b.parts[n].name, b.received, true)]
    && !b'.started && !b'.current && !b'.isFile && b'.payload == b.payload
  }

  /** What the call adds to the octets: nothing, unless the body is through and has left a
      file open. */
  lemma {:induction false} EndOfBody(cfg: Config, c: Core, pos: nat, data: Bytes)
    requires Placed(cfg, c)
    ensures var f := Conclude(cfg, c, pos, data);
            if pos >= cfg.contentLength && c.book.started
            then f.outcome.Failed? && BrokenOff(c.book, f.core.book) && f.core == c.(book := f.core.book)
            else f.core == c
  {
  }

  /** Split invariance: two calls do what one call with all the octets does, and
      fail exactly if that one fails. */
  lemma {:induction false} FeedSplit(cfg: Config, c: Core, pos: nat, a: Bytes, b: Bytes)
    requires Placed(cfg, c) && pos + |a| + |b| <= cfg.contentLength
    ensures var whole := Feed(cfg, c, pos, a + b);
            var first := Feed(cfg, c, pos, a);
            var second := Feed(cfg, first.core, first.pos, b);
            && whole.core == second.core && whole.pos == second.pos
            && whole.outcome == if first.outcome.Failed? then Failed else second.outcome
  {
    var mid := RunAll(cfg, c, a);
    FoldConcat(Stepper(cfg), c, a, b);
    RunPlaced(cfg, c, a, 0, |a|);
    RunPlaced(cfg, mid, b, 0, |b|);
    if a == [] {
      assert a + b == b;
    }
    if b == [] {
      assert a + b == a;
      EndShape(cfg, mid.book, false);
    } else if mid.phase.Error? {
      RunStuck(cfg, mid, b);
    }
  }

  lemma {:induction false} FeedPlaced(cfg: Config, c: Core, pos: nat, data: Bytes)
    requires Placed(cfg, c)
    ensures Placed(cfg, Feed(cfg, c, pos, data).core)
  {
    RunPlaced(cfg, c, data, 0, |data|);
    EndShape(cfg, RunAll(cfg, c, data).book, false);
  }

  /** One call per piece; the first failure is what counts. */
  function FeedEach(cfg: Config, c: Core, pos: nat, pieces: seq<Bytes>): Fed
    requires pieces != []
    decreases |pieces|
  {
    var first := Feed(cfg, c, pos, pieces[0]);
    if |pieces| == 1 then first
    else
      var rest := FeedEach(cfg, first.core, first.pos, pieces[1..]);
      if first.outcome.Failed? then rest.(outcome := Failed) else rest
  }

  /** However the body is cut: the same state, the same trace, the same outcome. */
  lemma {:induction false} FeedPieces(cfg: Config, c: Core, pos: nat, pieces: seq<Bytes>)
    requires pieces != [] && Placed(cfg, c) && pos + |Joined(pieces)| <= cfg.contentLength
    ensures FeedEach(cfg, c, pos, pieces) == Feed(cfg, c, pos, Joined(pieces))
    decreases |pieces|
  {
    var a, rest := pieces[0], pieces[1..];
    if |pieces| == 1 {
      assert rest == [] && Joined(pieces) == a;
    } else {
      var first := Feed(cfg, c, pos, a);
      FeedPlaced(cfg, c, pos, a);
      FeedPieces(cfg, first.core, first.pos, rest);
      FeedSplit(cfg, c, pos, a, Joined(rest));
    }
  }
}
