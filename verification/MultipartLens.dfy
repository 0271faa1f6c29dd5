/** What the receiver is compared with: the machine over single octets, with a handler that
    answers to calls without cuts. */
module MultipartLens {
  import opened Bytes
  import opened MultipartMachine
  import opened MultipartProtocol
  import opened MultipartSplit
  import opened MultipartCuts

  /** The same handler, asking for nothing. */
  function Quiet(cfg: Config): Config {
    cfg.(aborts := (t: Trace) => false)
  }

  /** The answer to calls without cuts: that to any calls that come up and are the same up to
      the cuts. */
  ghost function Canonical(cfg: Config): Config {
    cfg.(aborts := (t: Trace) => exists u :: Stands(cfg, u, t) && cfg.aborts(u))
  }

  ghost predicate Stands(cfg: Config, u: Trace, t: Trace) {
    Live(cfg, u) && u != [] && Coalesce(u) == t
  }

  /** The handler a run is compared with: one that is blind to the cuts with itself or with
      its answers to the calls without them; any other as long as the upload is not aborted. */
  ghost function Lens(cfg: Config): Config {
    if PieceBlind(cfg.aborts) then cfg else if Blind(cfg) then Canonical(cfg) else Quiet(cfg)
  }

  ghost predicate Clear(cfg: Config, b: Book) {
    Blind(cfg) || !b.aborted
  }

  /** The way from one book to the other can be measured: no abort on it depends on the cuts,
      and behind an abort nothing does. */
  ghost predicate ClearWay(cfg: Config, b: Book, b': Book) {
    Clear(cfg, b') || b.aborted
  }

  lemma {:induction false} CanonicalAnswer(cfg: Config, t: Trace, e: Event)
    requires Blind(cfg) && !cfg.discard && Live(cfg, t) && Unasked(cfg, t) && MayFollow(cfg, t, e) && !e.Chunk?
    ensures Canonical(cfg).aborts(Coalesce(t) + [e]) == cfg.aborts(t + [e])
  {
    LiveMore(cfg, t, e);
    CoalescePush(t, e);
    assert Stands(cfg, t + [e], Coalesce(t) + [e]);
  }

  /** A call other than a chunk is no matter of cuts. */
  lemma {:induction false} NormalCall(cfg: Config, t: Trace, e: Event)
    requires !cfg.discard && Live(cfg, t) && Unasked(cfg, t) && MayFollow(cfg, t, e) && !e.Chunk?
    ensures Coalesce(t + [e]) == Coalesce(t) + [e]
    ensures Blind(cfg) || !cfg.aborts(t + [e]) ==> cfg.aborts(t + [e]) == Lens(cfg).aborts(Coalesce(t) + [e])
  {
    CoalescePush(t, e);
    if PieceBlind(cfg.aborts) {
      assert Steady(cfg.aborts, t + [e]);
    } else if Blind(cfg) {
      CanonicalAnswer(cfg, t, e);
    }
  }

  lemma {:induction false} ChunkUnasked(cfg: Config, b: Book, d: Bytes)
    requires Sound(cfg, b) && Blind(cfg) && b.started && !b.aborted && !cfg.discard && d != []
    ensures !cfg.aborts(b.events + [Chunk(d)])
  {
    SameAnswer(cfg, b.events, b.events, Chunk(d));
  }

  /** What is passed on does not depend on the handler. */
  lemma {:induction false} PassSame(cfg: Config, b: Book, d: Bytes)
    ensures Pass(Lens(cfg), b, d) == Pass(cfg, b, d)
  {
  }

  lemma {:induction false} NormalEmit(cfg: Config, b: Book, d: Bytes)
    requires Sound(cfg, b) && ClearWay(cfg, b, Emit(cfg, b, d))
    ensures Normal(Emit(cfg, b, d)) == Pass(cfg, Normal(b), d)
  {
    CoalescePush(b.events, Chunk(d));
    if Blind(cfg) && b.isFile && !b.aborted && !cfg.discard && d != [] {
      ChunkUnasked(cfg, b, d);
    }
  }

  lemma {:induction false} NormalBegin(cfg: Config, b: Book, header: Bytes)
    requires Sound(cfg, b) && Closed(b) && ClearWay(cfg, b, BeginPart(cfg, b, header))
    ensures Normal(BeginPart(cfg, b, header)) == BeginPart(Lens(cfg), Normal(b), header)
  {
    if !b.aborted && !cfg.discard && cfg.analyse(header).Names? && cfg.analyse(header).file.Some? {
      var name := cfg.analyse(header).file.value;
      assert Announces(cfg, header, name);
      NormalCall(cfg, b.events, Start(name));
    }
  }

  /** A state with a consistent book, seen without the cuts. */
  lemma {:induction false} SeenPlaced(cfg: Config, c: Core, b: Book)
    requires Shape(cfg, b) && c.book == Normal(b) && (!PartOpen(c) ==> Closed(b))
    ensures Placed(Lens(cfg), c)
  {
  }

  lemma {:induction false} NormalEnd(cfg: Config, b: Book, success: bool)
    requires Sound(cfg, b) && ClearWay(cfg, b, EndPart(cfg, b, success))
    ensures Normal(EndPart(cfg, b, success)) == EndPart(Lens(cfg), Normal(b), success)
  {
    assert Normal(TellEnd(cfg, b, success)) == TellEnd(Lens(cfg), Normal(b), success) by {
      CoalescePush(b.events, End(success && !b.aborted));
      if b.started && !b.aborted {
        NormalCall(cfg, b.events, End(success));
      }
    }
    NormalNote(TellEnd(cfg, b, success), success);
  }
}
