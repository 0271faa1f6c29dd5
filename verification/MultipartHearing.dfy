/** What an upload handler hears up to its abort: the beginning of what it would hear
    without one, measured on the machine over single octets. */
module MultipartHearing {
  import opened Bytes
  import opened NeedleScan
  import opened MultipartMachine
  import opened MultipartProtocol
  import opened MultipartSplit
  import opened MultipartCuts
  import opened MultipartLens

  /** The calls of `t` are the first of `u`; of a last chunk there may be more in `u`. */
  ghost predicate Begins(t: Trace, u: Trace) {
    t == [] || (var n := |t| - 1;
                n < |u| && t[..n] == u[..n]
                && (t[n] == u[n] || (t[n].Chunk? && u[n].Chunk? && t[n].data <= u[n].data)))
  }

  /** The calls without the failed end that may follow an abort. */
  function Calls(t: Trace): Trace {
    if t != [] && t[|t| - 1] == End(false) then t[..|t| - 1] else t
  }

  /** What was heard, without the cuts and up to the abort. */
  function Heard(t: Trace): Trace {
    Coalesce(Calls(t))
  }

  lemma {:induction false} HeardBegins(t: Trace, u: Trace)
    requires Begins(Coalesce(t), u)
    ensures Begins(Heard(t), u)
  {
    if t != [] && t[|t| - 1] == End(false) {
      var front := t[..|t| - 1];
      assert t == front + [End(false)];
      CoalescePush(front, End(false));
      BeginsShorter(Coalesce(front), End(false), u);
    }
  }

  lemma {:induction false} BeginsShorter(t: Trace, e: Event, u: Trace)
    requires Begins(t + [e], u)
    ensures Begins(t, u)
  {
    assert (t + [e])[..|t|] == t;
    if t != [] {
      var n := |t| - 1;
      assert t[..n] == u[..|t|][..n] == u[..n];
      assert t[n] == u[..|t|][n];
    }
  }

  /** What comes later does not change the beginning. */
  lemma {:induction false} BeginsPush(t: Trace, u: Trace, e: Event)
    requires Begins(t, u)
    ensures Begins(t, Push(u, e))
  {
    if t != [] {
      var n, v := |t| - 1, Push(u, e);
      assert v[..n] == u[..n];
      if n == |u| - 1 && e.Chunk? && u[n].Chunk? {
        assert v[n] == Chunk(u[n].data + e.data);
      }
    }
  }

  lemma {:induction false} BeginsPass(cfg: Config, t: Trace, b: Book, d: Bytes)
    requires Begins(t, b.events)
    ensures Begins(t, Pass(cfg, b, d).events)
  {
    BeginsPush(t, b.events, Chunk(d));
  }

  lemma {:induction false} BeginsOpen(cfg: Config, t: Trace, b: Book, header: Bytes)
    requires Begins(t, b.events)
    ensures Begins(t, BeginPart(cfg, b, header).events)
  {
    if cfg.analyse(header).Names? && cfg.analyse(header).file.Some? {
      BeginsPush(t, b.events, Start(cfg.analyse(header).file.value));
    }
  }

  lemma {:induction false} BeginsEnd(cfg: Config, t: Trace, b: Book, success: bool)
    requires Begins(t, b.events)
    ensures Begins(t, EndPart(cfg, b, success).events)
  {
    BeginsPush(t, b.events, End(success && !b.aborted));
  }

  lemma {:induction false} BeginsHeader(cfg: Config, t: Trace, c: Core, b: byte)
    requires Begins(t, c.book.events)
    ensures Begins(t, HeaderStep(cfg, c, b).book.events)
  {
    var kept := if |c.header| + 1 >= MAX_PART_HEADER && |c.header| >= 3 then c.header[|c.header| - 3..] else c.header;
    BeginsOpen(cfg, t, c.book, kept + [b]);
  }

  lemma {:induction false} BeginsResolve(cfg: Config, t: Trace, c: Core, z: Bytes)
    requires Begins(t, c.book.events) && |z| == 2
    ensures Begins(t, Resolve(cfg, c, z).book.events)
  {
    BeginsEnd(cfg, t, c.book, true);
    BeginsPass(cfg, t, c.book, cfg.Delim());
    BeginsPass(cfg, t, Pass(cfg, c.book, cfg.Delim()), Sure(cfg.Delim(), z));
  }

  lemma {:induction false} BeginsStep(cfg: Config, t: Trace, c: Core, b: byte)
    requires Begins(t, c.book.events)
    ensures Begins(t, Step(cfg, c, b).book.events)
  {
    match c.phase
    case Preamble =>
    case AfterBoundary => BeginsHeader(cfg, t, OpenHeader(c), b);
    case PartHeader => BeginsHeader(cfg, t, c, b);
    case PartData => BeginsPass(cfg, t, c.book, Sure(cfg.Delim(), c.hold + [b]));
    case DelimCheck =>
      if |c.hold| == 1 {
        BeginsResolve(cfg, t, c, c.hold + [b]);
      }
    case Epilogue =>
    case Error =>
  }

  lemma {:induction false} BeginsRun(cfg: Config, t: Trace, c: Core, data: Bytes, lo: nat, hi: nat)
    requires lo <= hi <= |data| && Begins(t, c.book.events)
    ensures Begins(t, Run(cfg, c, data, lo, hi).book.events)
    decreases hi
  {
    if lo < hi {
      BeginsRun(cfg, t, c, data, lo, hi - 1);
      BeginsStep(cfg, t, Run(cfg, c, data, lo, hi - 1), data[hi - 1]);
    }
  }

  lemma {:induction false} BeginsConclude(cfg: Config, t: Trace, c: Core, pos: nat, data: Bytes)
    requires Begins(t, c.book.events)
    ensures Begins(t, Conclude(cfg, c, pos, data).core.book.events)
  {
    BeginsEnd(cfg, t, c.book, false);
  }

  // ----- the receiver's book against the machine's -----

  /** The book `b` after passing `out` on from `book`: the same up to the cuts, and if the
      handler has aborted meanwhile, it has heard the beginning. */
  ghost predicate Follows(cfg: Config, b: Book, book: Book, out: Bytes) {
    && (ClearWay(cfg, book, b) ==> Normal(b) == Pass(cfg, book, out))
    && (!book.aborted && b.aborted ==> Begins(Coalesce(b.events), Pass(cfg, book, out).events))
  }

  lemma {:induction false} EmitFollows(cfg: Config, b: Book, book: Book, out: Bytes, d: Bytes)
    requires Reached(cfg, b) && Follows(cfg, b, book, out)
    ensures Follows(cfg, Emit(cfg, b, d), book, out + d)
  {
    var after := Emit(cfg, b, d);
    PassTwice(cfg, book, out, d);
    if ClearWay(cfg, book, after) {
      ReachedSound(cfg, b);
      NormalEmit(cfg, b, d);
    }
    if !book.aborted && after.aborted {
      if b.aborted {
        BeginsPass(cfg, Coalesce(b.events), Pass(cfg, book, out), d);
      } else {
        CoalescePush(b.events, Chunk(d));
      }
    }
  }

  /** After an abort the open part hears that it failed, and nothing else is heard. */
  lemma {:induction false} HeardEnds(cfg: Config, b: Book, success: bool)
    requires Inv(cfg, b) && b.aborted
    ensures Calls(EndPart(cfg, b, success).events) == Calls(b.events)
  {
    if b.started {
      assert Tell(cfg.aborts, b.events).running.Some?;
      assert b.events[|b.events| - 1] != End(false);
      TellMore(cfg.aborts, b.events, End(false));
    }
  }

  /** The end that an open part gets when the body breaks off adds nothing to what was heard
      up to an abort, be it before that end (`a`) or from within it. */
  lemma {:induction false} ConcludeHeard(cfg: Config, r: Core, t: Trace, a: bool, t': Trace, pos: nat, data: Bytes)
    requires Begins(Heard(t), r.book.events)
    requires if a then Calls(t') == Calls(t) else Calls(t') == t && r.book.events == Coalesce(t)
    ensures Begins(Heard(t'), Conclude(Lens(cfg), r, pos, data).core.book.events)
  {
    BeginsConclude(Lens(cfg), Heard(t'), r, pos, data);
  }
}
