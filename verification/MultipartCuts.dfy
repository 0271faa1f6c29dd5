/** Which handlers cannot tell how a body was cut: the exact condition, over whole runs
    of the receiver's operations. */
module MultipartCuts {
  import opened Bytes
  import opened Sequences
  import opened MultipartMachine
  import opened MultipartProtocol
  import opened MultipartSplit

  // ----- runs that differ in their cuts only -----

  /** Payload is added to payload taken just before. */
  function Join(log: seq<Op>, op: Op): seq<Op> {
    if op == Take([]) then log
    else if op.Take? && log != [] && log[|log| - 1].Take?
    then log[..|log| - 1] + [Take(log[|log| - 1].data + op.data)]
    else log + [op]
  }

  /** A run without its cuts. */
  function Uncut(log: seq<Op>): seq<Op>
    decreases |log|
  {
    if log == [] then [] else Join(Uncut(log[..|log| - 1]), log[|log| - 1])
  }

  /** However the payload is cut: the same entries, the same calls up to the cuts, the
      same aborts. */
  ghost predicate CutsUnseen(cfg: Config) {
    forall a, b :: Uncut(a) == Uncut(b) ==> Normal(Replay(cfg, a)) == Normal(Replay(cfg, b))
  }

  // ----- what the handler can come to hear -----

  ghost predicate Announced(cfg: Config, name: Bytes) {
    exists header :: Announces(cfg, header, name)
  }

  predicate Announces(cfg: Config, header: Bytes, name: Bytes) {
    cfg.analyse(header).Names? && cfg.analyse(header).file == Some(name)
  }

  predicate Open(t: Trace) {
    t != [] && !t[|t| - 1].End?
  }

  ghost predicate Unasked(cfg: Config, t: Trace) {
    t == [] || !cfg.aborts(t)
  }

  ghost predicate MayFollow(cfg: Config, t: Trace, e: Event) {
    match e
    case Start(name) => !Open(t) && Announced(cfg, name)
    case Chunk(d) => Open(t) && d != []
    case End(_) => Open(t)
  }

  /** Calls in the order of the protocol, with names that some header announces, before
      the last of which the handler has not asked for an abort. */
  ghost predicate Live(cfg: Config, t: Trace)
    decreases |t|
  {
    t == [] || (var front := t[..|t| - 1];
                !cfg.discard && Live(cfg, front) && Unasked(cfg, front) && MayFollow(cfg, front, t[|t| - 1]))
  }

  /** No chunk call asks for an abort, and no call decides by the cuts before it. */
  ghost predicate Blind(cfg: Config) {
    && (forall t: Trace :: Live(cfg, t) && t != [] && t[|t| - 1].Chunk? ==> !cfg.aborts(t))
    && (forall t: Trace, u: Trace :: Live(cfg, t) && Live(cfg, u) && Coalesce(t) == Coalesce(u) && t != [] && u != [] ==> cfg.aborts(t) == cfg.aborts(u))
  }

  lemma {:induction false} LiveMore(cfg: Config, t: Trace, e: Event)
    requires !cfg.discard && Live(cfg, t) && Unasked(cfg, t) && MayFollow(cfg, t, e)
    ensures Live(cfg, t + [e]) && t + [e] != []
    ensures Open(t + [e]) <==> !e.End?
  {
    assert (t + [e])[..|t + [e]| - 1] == t;
  }

  // ----- a blind handler sees no cuts -----

  /** In every run the handler has heard a live trace as long as nothing was aborted. */
  ghost predicate Sound(cfg: Config, b: Book) {
    && Shape(cfg, b)
    && (!b.aborted ==> Live(cfg, b.events) && Unasked(cfg, b.events) && (Open(b.events) <==> b.started))
  }

  lemma {:induction false} SoundEmit(cfg: Config, b: Book, d: Bytes)
    requires Sound(cfg, b)
    ensures Sound(cfg, Emit(cfg, b, d))
  {
    if d != [] && b.started && !b.aborted {
      LiveMore(cfg, b.events, Chunk(d));
    }
  }

  lemma {:induction false} SoundBegin(cfg: Config, b: Book, header: Bytes)
    requires Sound(cfg, b) && Closed(b)
    ensures Sound(cfg, BeginPart(cfg, b, header))
  {
    BeginShape(cfg, b, header);
    if !b.aborted && !cfg.discard && cfg.analyse(header).Names? && cfg.analyse(header).file.Some? {
      var name := cfg.analyse(header).file.value;
      assert Announces(cfg, header, name);
      LiveMore(cfg, b.events, Start(name));
    }
  }

  lemma {:induction false} SoundEnd(cfg: Config, b: Book, success: bool)
    requires Sound(cfg, b)
    ensures Sound(cfg, EndPart(cfg, b, success))
  {
    EndShape(cfg, b, success);
    if b.started && !b.aborted {
      LiveMore(cfg, b.events, End(success));
    }
  }

  lemma {:induction false} SoundApply(cfg: Config, b: Book, op: Op)
    requires Sound(cfg, b)
    ensures Sound(cfg, Apply(cfg, b, op))
  {
    match op
    case Take(d) => SoundEmit(cfg, b, d);
    case Begin(header) =>
      if Closed(b) {
        SoundBegin(cfg, b, header);
      }
    case Close(success) => SoundEnd(cfg, b, success);
    case Check =>
  }

  lemma {:induction false} SoundReplay(cfg: Config, log: seq<Op>)
    ensures Sound(cfg, Replay(cfg, log))
    decreases |log|
  {
    if log != [] {
      SoundReplay(cfg, log[..|log| - 1]);
      SoundApply(cfg, Replay(cfg, log[..|log| - 1]), log[|log| - 1]);
    }
  }

  /** The book after some run. */
  ghost predicate Reached(cfg: Config, b: Book) {
    exists log :: Replay(cfg, log) == b
  }

  lemma {:induction false} ReachedSound(cfg: Config, b: Book)
    requires Reached(cfg, b)
    ensures Sound(cfg, b)
  {
    var log :| Replay(cfg, log) == b;
    SoundReplay(cfg, log);
  }

  /** The same call after the same calls up to the cuts: the same answer. */
  lemma {:induction false} SameAnswer(cfg: Config, t: Trace, u: Trace, e: Event)
    requires Blind(cfg) && !cfg.discard && Coalesce(t) == Coalesce(u)
    requires Live(cfg, t) && Unasked(cfg, t) && MayFollow(cfg, t, e)
    requires Live(cfg, u) && Unasked(cfg, u) && MayFollow(cfg, u, e)
    ensures cfg.aborts(t + [e]) == cfg.aborts(u + [e])
    ensures e.Chunk? ==> !cfg.aborts(t + [e])
  {
    LiveMore(cfg, t, e);
    LiveMore(cfg, u, e);
    CoalescePush(t, e);
    CoalescePush(u, e);
    assert (t + [e])[|t + [e]| - 1] == e;
  }

  lemma {:induction false} SameEmit(cfg: Config, b: Book, c: Book, d: Bytes)
    requires Blind(cfg) && Sound(cfg, b) && Sound(cfg, c) && Normal(b) == Normal(c)
    ensures Normal(Emit(cfg, b, d)) == Normal(Emit(cfg, c, d))
  {
    if Passes(cfg, b, d) {
      SameAnswer(cfg, b.events, c.events, Chunk(d));
    }
    EmitAlike(cfg, b, c, d);
  }

  /** A chunk call is made. */
  predicate Passes(cfg: Config, b: Book, d: Bytes) {
    d != [] && b.isFile && !b.aborted && !cfg.discard
  }

  lemma {:induction false} EmitAlike(cfg: Config, b: Book, c: Book, d: Bytes)
    requires Normal(b) == Normal(c)
    requires Passes(cfg, b, d) ==> cfg.aborts(b.events + [Chunk(d)]) == cfg.aborts(c.events + [Chunk(d)])
    ensures Normal(Emit(cfg, b, d)) == Normal(Emit(cfg, c, d))
  {
    SameChunk(b.events, c.events, d);
  }

  lemma {:induction false} SameChunk(t: Trace, u: Trace, d: Bytes)
    requires Coalesce(t) == Coalesce(u)
    ensures Coalesce(t + [Chunk(d)]) == Coalesce(u + [Chunk(d)])
  {
    CoalescePush(t, Chunk(d));
    CoalescePush(u, Chunk(d));
  }

  lemma {:induction false} SameBegin(cfg: Config, b: Book, c: Book, header: Bytes)
    requires Blind(cfg) && Sound(cfg, b) && Sound(cfg, c) && Normal(b) == Normal(c) && Closed(b)
    ensures Normal(BeginPart(cfg, b, header)) == Normal(BeginPart(cfg, c, header))
  {
    if !b.aborted && !cfg.discard && cfg.analyse(header).Names? && cfg.analyse(header).file.Some? {
      var name := cfg.analyse(header).file.value;
      assert Announces(cfg, header, name);
      SameAnswer(cfg, b.events, c.events, Start(name));
      CoalescePush(b.events, Start(name));
      CoalescePush(c.events, Start(name));
    }
  }

  lemma {:induction false} SameEnd(cfg: Config, b: Book, c: Book, success: bool)
    requires Blind(cfg) && Sound(cfg, b) && Sound(cfg, c) && Normal(b) == Normal(c)
    ensures Normal(EndPart(cfg, b, success)) == Normal(EndPart(cfg, c, success))
  {
    var e := End(success && !b.aborted);
    if b.started && !b.aborted {
      SameAnswer(cfg, b.events, c.events, e);
    }
    CoalescePush(b.events, e);
    CoalescePush(c.events, e);
    var x, y := TellEnd(cfg, b, success), TellEnd(cfg, c, success);
    assert Normal(x) == Normal(y);
    NormalNote(x, success);
    NormalNote(y, success);
  }

  lemma {:induction false} SameApply(cfg: Config, b: Book, c: Book, op: Op)
    requires Blind(cfg) && Sound(cfg, b) && Sound(cfg, c) && Normal(b) == Normal(c)
    ensures Normal(Apply(cfg, b, op)) == Normal(Apply(cfg, c, op))
  {
    match op
    case Take(d) => SameEmit(cfg, b, c, d);
    case Begin(header) =>
      if Closed(b) {
        SameBegin(cfg, b, c, header);
      }
    case Close(success) => SameEnd(cfg, b, c, success);
    case Check =>
  }

  /** A piece in two calls or in one. */
  lemma {:induction false} CutOfPiece(cfg: Config, b: Book, d: Bytes, e: Bytes)
    requires Blind(cfg) && Sound(cfg, b) && d != [] && e != []
    ensures Normal(Emit(cfg, Emit(cfg, b, d), e)) == Normal(Emit(cfg, b, d + e))
  {
    Concat(b.payload, d, e);
    CoalesceTwo(b.events, d, e);
    if b.started && !b.aborted {
      SameAnswer(cfg, b.events, b.events, Chunk(d));
      LiveMore(cfg, b.events, Chunk(d));
      SameAnswer(cfg, b.events + [Chunk(d)], b.events + [Chunk(d)], Chunk(e));
      SameAnswer(cfg, b.events, b.events, Chunk(d + e));
    }
  }

  lemma {:induction false} CoalesceTwo(t: Trace, d: Bytes, e: Bytes)
    ensures Coalesce(t + [Chunk(d)] + [Chunk(e)]) == Coalesce(t + [Chunk(d + e)])
  {
    CoalescePush(t, Chunk(d));
    CoalescePush(t + [Chunk(d)], Chunk(e));
    CoalescePush(t, Chunk(d + e));
    PushTwice(Coalesce(t), d, e);
  }

  ghost predicate NoEmptyTake(log: seq<Op>) {
    forall i :: 0 <= i < |log| ==> log[i] != Take([])
  }

  lemma {:induction false} UncutTakes(log: seq<Op>)
    ensures NoEmptyTake(Uncut(log))
    decreases |log|
  {
    if log != [] {
      UncutTakes(log[..|log| - 1]);
    }
  }

  /** One more operation, joined to the run or behind it. */
  lemma {:induction false} JoinUnseen(cfg: Config, log: seq<Op>, op: Op)
    requires Blind(cfg) && NoEmptyTake(log)
    ensures Normal(Replay(cfg, Join(log, op))) == Normal(Apply(cfg, Replay(cfg, log), op))
  {
    if op != Take([]) {
      if op.Take? && log != [] && log[|log| - 1].Take? {
        var front, d := log[..|log| - 1], log[|log| - 1].data;
        SoundReplay(cfg, front);
        assert log[|log| - 1] != Take([]);
        CutOfPiece(cfg, Replay(cfg, front), d, op.data);
        ReplayMore(cfg, front, Take(d + op.data));
      } else {
        ReplayMore(cfg, log, op);
      }
    }
  }

  lemma {:induction false} UncutUnseen(cfg: Config, log: seq<Op>)
    requires Blind(cfg)
    ensures Normal(Replay(cfg, log)) == Normal(Replay(cfg, Uncut(log)))
    decreases |log|
  {
    if log != [] {
      var front, op := log[..|log| - 1], log[|log| - 1];
      UncutUnseen(cfg, front);
      SoundReplay(cfg, front);
      SoundReplay(cfg, Uncut(front));
      SameApply(cfg, Replay(cfg, front), Replay(cfg, Uncut(front)), op);
      UncutTakes(front);
      JoinUnseen(cfg, Uncut(front), op);
    }
  }

  // ----- and no other handler -----

  ghost function HeaderFor(cfg: Config, name: Bytes): Bytes {
    if Announced(cfg, name) then var header :| Announces(cfg, header, name); header else []
  }

  ghost function OpOf(cfg: Config, e: Event): Op {
    match e
    case Start(name) => Begin(HeaderFor(cfg, name))
    case Chunk(d) => Take(d)
    case End(success) => Close(success)
  }

  /** A run in which the handler hears just these calls. */
  ghost function LogOf(cfg: Config, t: Trace): seq<Op>
    decreases |t|
  {
    if t == [] then [] else LogOf(cfg, t[..|t| - 1]) + [OpOf(cfg, t[|t| - 1])]
  }

  ghost predicate NoEmptyChunk(t: Trace) {
    forall i :: 0 <= i < |t| ==> t[i] != Chunk([])
  }

  lemma {:induction false} LiveChunks(cfg: Config, t: Trace)
    requires Live(cfg, t)
    ensures NoEmptyChunk(t)
    decreases |t|
  {
    if t != [] {
      LiveChunks(cfg, t[..|t| - 1]);
    }
  }

  lemma {:induction false} LogMore(cfg: Config, t: Trace, e: Event)
    ensures LogOf(cfg, t + [e]) == LogOf(cfg, t) + [OpOf(cfg, e)]
  {
    assert (t + [e])[..|t + [e]| - 1] == t;
  }

  /** The book after a run in which the handler heard just `t`. */
  ghost predicate Told(cfg: Config, t: Trace, b: Book) {
    && b.events == t && b.aborted == !Unasked(cfg, t)
    && (b.started <==> Open(t)) && (b.current <==> Open(t)) && (b.isFile <==> Open(t))
  }

  lemma {:induction false} ToldMore(cfg: Config, t: Trace, b: Book, e: Event)
    requires !cfg.discard && Told(cfg, t, b) && Unasked(cfg, t) && MayFollow(cfg, t, e)
    ensures Told(cfg, t + [e], Apply(cfg, b, OpOf(cfg, e)))
  {
    assert (t + [e])[|t|] == e;
  }

  lemma {:induction false} Enacted(cfg: Config, t: Trace)
    requires Live(cfg, t)
    ensures Told(cfg, t, Replay(cfg, LogOf(cfg, t)))
    decreases |t|
  {
    if t != [] {
      var front, e := t[..|t| - 1], t[|t| - 1];
      Enacted(cfg, front);
      ToldMore(cfg, front, Replay(cfg, LogOf(cfg, front)), e);
      ReplayMore(cfg, LogOf(cfg, front), OpOf(cfg, e));
      assert t == front + [e];
    }
  }

  lemma {:induction false} PushLog(cfg: Config, t: Trace, e: Event)
    requires NoEmptyChunk(t) && e != Chunk([])
    ensures NoEmptyChunk(Push(t, e)) && LogOf(cfg, Push(t, e)) == Join(LogOf(cfg, t), OpOf(cfg, e))
  {
    if e.Chunk? && t != [] && t[|t| - 1].Chunk? {
      var front := t[..|t| - 1];
      LogMore(cfg, front, Chunk(t[|t| - 1].data + e.data));
    } else {
      LogMore(cfg, t, e);
    }
  }

  lemma {:induction false} CoalesceLog(cfg: Config, t: Trace)
    requires NoEmptyChunk(t)
    ensures NoEmptyChunk(Coalesce(t)) && Uncut(LogOf(cfg, t)) == LogOf(cfg, Coalesce(t))
    decreases |t|
  {
    if t != [] {
      var front, e := t[..|t| - 1], t[|t| - 1];
      CoalesceLog(cfg, front);
      PushLog(cfg, Coalesce(front), e);
      var log := LogOf(cfg, t);
      assert log[..|log| - 1] == LogOf(cfg, front);
    }
  }

  lemma {:induction false} Differ(cfg: Config, a: seq<Op>, b: seq<Op>)
    requires Uncut(a) == Uncut(b) && Normal(Replay(cfg, a)) != Normal(Replay(cfg, b))
    ensures !CutsUnseen(cfg)
  {
  }

  /** The abort from within a chunk call takes effect at the next cut only. */
  lemma {:induction false} ChunkAbortSeen(cfg: Config, t: Trace, d: Bytes)
    requires !cfg.discard && Live(cfg, t) && Unasked(cfg, t) && Open(t) && d != [] && cfg.aborts(t + [Chunk(d)])
    ensures !CutsUnseen(cfg)
  {
    Enacted(cfg, t);
    var log := LogOf(cfg, t);
    LostBehindAbort(cfg, log, d, [0]);
    UncutTwo(log, d, [0]);
    Differ(cfg, log + [Take(d)] + [Take([0])], log + [Take(d + [0])]);
  }

  /** Payload behind a chunk call that asks for an abort is not counted. */
  lemma {:induction false} LostBehindAbort(cfg: Config, log: seq<Op>, d: Bytes, e: Bytes)
    requires !cfg.discard && d != [] && e != [] && Replay(cfg, log).isFile && !Replay(cfg, log).aborted
    requires cfg.aborts(Replay(cfg, log).events + [Chunk(d)])
    ensures Replay(cfg, log + [Take(d)] + [Take(e)]).received < Replay(cfg, log + [Take(d + e)]).received
  {
    ReplayMore(cfg, log, Take(d));
    ReplayMore(cfg, log + [Take(d)], Take(e));
    ReplayMore(cfg, log, Take(d + e));
  }

  lemma {:induction false} UncutTwo(log: seq<Op>, d: Bytes, e: Bytes)
    requires d != [] && e != []
    ensures Uncut(log + [Take(d)] + [Take(e)]) == Uncut(log + [Take(d + e)])
  {
    UncutMore(log, Take(d));
    UncutMore(log + [Take(d)], Take(e));
    UncutMore(log, Take(d + e));
    JoinTwice(Uncut(log), d, e);
  }

  lemma {:induction false} UncutMore(log: seq<Op>, op: Op)
    ensures Uncut(log + [op]) == Join(Uncut(log), op)
  {
    assert (log + [op])[..|log|] == log;
  }

  lemma {:induction false} JoinTwice(log: seq<Op>, d: Bytes, e: Bytes)
    requires d != [] && e != []
    ensures Join(Join(log, Take(d)), Take(e)) == Join(log, Take(d + e))
  {
    if log != [] && log[|log| - 1].Take? {
      var front, x := log[..|log| - 1], log[|log| - 1].data;
      assert (front + [Take(x + d)])[..|front|] == front;
      Concat(x, d, e);
    } else {
      assert (log + [Take(d)])[..|log|] == log;
    }
  }

  /** A handler that decides by the cuts before its call. */
  lemma {:induction false} CutsCounted(cfg: Config, t: Trace, u: Trace)
    requires Live(cfg, t) && Live(cfg, u) && Coalesce(t) == Coalesce(u) && t != [] && u != []
    requires cfg.aborts(t) != cfg.aborts(u)
    ensures !CutsUnseen(cfg)
  {
    LiveChunks(cfg, t);
    LiveChunks(cfg, u);
    Enacted(cfg, t);
    Enacted(cfg, u);
    CoalesceLog(cfg, t);
    CoalesceLog(cfg, u);
    Differ(cfg, LogOf(cfg, t), LogOf(cfg, u));
  }

  /** No run shows how its payload was cut exactly if, on the calls that can come up at
      all, the handler never aborts from a chunk call and never decides by the cuts. */
  lemma {:induction false} CutsUnseenIff(cfg: Config)
    ensures CutsUnseen(cfg) <==> Blind(cfg)
  {
    if Blind(cfg) {
      forall a, b | Uncut(a) == Uncut(b) ensures Normal(Replay(cfg, a)) == Normal(Replay(cfg, b)) {
        UncutUnseen(cfg, a);
        UncutUnseen(cfg, b);
      }
    }
    if !Blind(cfg) {
      if t: Trace :| Live(cfg, t) && t != [] && t[|t| - 1].Chunk? && cfg.aborts(t) {
        assert t == t[..|t| - 1] + [Chunk(t[|t| - 1].data)];
        ChunkAbortSeen(cfg, t[..|t| - 1], t[|t| - 1].data);
      } else {
        var t: Trace, u: Trace :| Live(cfg, t) && Live(cfg, u) && Coalesce(t) == Coalesce(u) && t != [] && u != [] && cfg.aborts(t) != cfg.aborts(u);
        CutsCounted(cfg, t, u);
      }
    }
  }

  /** The condition on the handler alone is enough. */
  lemma {:induction false} PieceBlindIsBlind(cfg: Config)
    requires PieceBlind(cfg.aborts)
    ensures Blind(cfg) && CutsUnseen(cfg)
  {
    forall t: Trace | Live(cfg, t) && t != [] && t[|t| - 1].Chunk? ensures !cfg.aborts(t) {
      assert Steady(cfg.aborts, t);
    }
    forall t: Trace, u: Trace | Live(cfg, t) && Live(cfg, u) && Coalesce(t) == Coalesce(u) && t != [] && u != []
      ensures cfg.aborts(t) == cfg.aborts(u)
    {
      assert Steady(cfg.aborts, t) && Steady(cfg.aborts, u);
    }
    CutsUnseenIff(cfg);
  }

  // ----- two octets, in one call or in two -----

  function Chunks(t: Trace): nat {
    if t == [] then 0 else Chunks(t[..|t| - 1]) + if t[|t| - 1].Chunk? then 1 else 0
  }

  /** A handler that counts its chunks, and says so at the end of a part. */
  function Counting(): Trace -> bool {
    (t: Trace) => t != [] && t[|t| - 1].End? && Chunks(t) >= 2
  }

  /** It never aborts from a chunk call, yet the file x, y is reported if it came in one
      call and is failed and not reported if it came in two. */
  lemma {:induction false} EndSeesCuts(cfg: Config, header: Bytes, name: Bytes, x: byte, y: byte)
    requires !cfg.discard && cfg.aborts == Counting() && Announces(cfg, header, name)
    ensures forall t, d :: !cfg.aborts(t + [Chunk(d)])
    ensures var whole := Replay(cfg, [Begin(header), Take([x, y]), Close(true)]);
            !whole.aborted && whole.parts == [Part(true, Cut(name), 2, false)]
    ensures var halves := Replay(cfg, [Begin(header), Take([x]), Take([y]), Close(true)]);
            halves.aborted && halves.parts == [Part(true, Cut(name), 2, true)]
    ensures !CutsUnseen(cfg)
  {
    forall t, d ensures !cfg.aborts(t + [Chunk(d)]) {
      assert (t + [Chunk(d)])[|t + [Chunk(d)]| - 1].Chunk?;
    }
    InOnePiece(cfg, header, name, [x, y]);
    InTwoPieces(cfg, header, name, [x], [y]);
    var log := [Begin(header)];
    UncutTwo(log, [x], [y]);
    assert [x] + [y] == [x, y];
    UncutMore(log + [Take([x, y])], Close(true));
    UncutMore(log + [Take([x])] + [Take([y])], Close(true));
    assert log + [Take([x, y])] + [Close(true)] == [Begin(header), Take([x, y]), Close(true)];
    assert log + [Take([x])] + [Take([y])] + [Close(true)] == [Begin(header), Take([x]), Take([y]), Close(true)];
    Differ(cfg, [Begin(header), Take([x, y]), Close(true)], [Begin(header), Take([x]), Take([y]), Close(true)]);
  }

  lemma {:induction false} Begun(cfg: Config, header: Bytes, name: Bytes)
    requires !cfg.discard && cfg.aborts == Counting() && Announces(cfg, header, name)
    ensures Replay(cfg, [Begin(header)]) ==
            Book(true, true, [Part(true, Cut(name), 0, false)], true, false, 0, [], [Start(name)])
  {
    assert [] + [Begin(header)] == [Begin(header)];
    ReplayMore(cfg, [], Begin(header));
    assert [] + [Start(name)] == [Start(name)];
    assert [] + [Part(true, Cut(name), 0, false)] == [Part(true, Cut(name), 0, false)];
  }

  /** An open file of one entry, its chunks counted. */
  ghost predicate Counted(cfg: Config, b: Book, name: Bytes, received: nat, chunks: nat) {
    && b.isFile && b.current && b.started && !b.aborted && b.received == received
    && b.parts == [Part(true, Cut(name), 0, false)] && Chunks(b.events) == chunks
  }

  lemma {:induction false} CountedMore(cfg: Config, b: Book, name: Bytes, received: nat, chunks: nat, d: Bytes)
    requires !cfg.discard && cfg.aborts == Counting() && d != [] && Counted(cfg, b, name, received, chunks)
    ensures Counted(cfg, Emit(cfg, b, d), name, received + |d|, chunks + 1)
  {
    ChunksMore(b.events, Chunk(d));
  }

  lemma {:induction false} CountedEnds(cfg: Config, b: Book, name: Bytes, received: nat, chunks: nat)
    requires cfg.aborts == Counting() && Counted(cfg, b, name, received, chunks)
    ensures var r := EndPart(cfg, b, true);
            r.aborted == (chunks >= 2) && r.parts == [Part(true, Cut(name), received, chunks >= 2)]
  {
    ChunksMore(b.events, End(true));
  }

  lemma {:induction false} CountedBegun(cfg: Config, header: Bytes, name: Bytes)
    requires !cfg.discard && cfg.aborts == Counting() && Announces(cfg, header, name)
    ensures Counted(cfg, Replay(cfg, [Begin(header)]), name, 0, 0)
  {
    Begun(cfg, header, name);
    ChunksMore([], Start(name));
    assert [] + [Start(name)] == [Start(name)];
  }

  lemma {:induction false} InOnePiece(cfg: Config, header: Bytes, name: Bytes, d: Bytes)
    requires !cfg.discard && cfg.aborts == Counting() && Announces(cfg, header, name) && d != []
    ensures var b := Replay(cfg, [Begin(header), Take(d), Close(true)]);
            !b.aborted && b.parts == [Part(true, Cut(name), |d|, false)]
  {
    CountedBegun(cfg, header, name);
    var log := [Begin(header)];
    ReplayMore(cfg, log, Take(d));
    CountedMore(cfg, Replay(cfg, log), name, 0, 0, d);
    ReplayMore(cfg, log + [Take(d)], Close(true));
    CountedEnds(cfg, Replay(cfg, log + [Take(d)]), name, |d|, 1);
    assert log + [Take(d)] + [Close(true)] == [Begin(header), Take(d), Close(true)];
  }

  lemma {:induction false} FourOps(a: Op, b: Op, c: Op, d: Op)
    ensures [a] + [b] + [c] + [d] == [a, b, c, d]
  {
  }

  lemma {:induction false} InTwoPieces(cfg: Config, header: Bytes, name: Bytes, d: Bytes, e: Bytes)
    requires !cfg.discard && cfg.aborts == Counting() && Announces(cfg, header, name) && d != [] && e != []
    ensures var b := Replay(cfg, [Begin(header), Take(d), Take(e), Close(true)]);
            b.aborted && b.parts == [Part(true, Cut(name), |d| + |e|, true)]
  {
    CountedBegun(cfg, header, name);
    var log := [Begin(header)];
    var log1, log2 := log + [Take(d)], log + [Take(d)] + [Take(e)];
    ReplayMore(cfg, log, Take(d));
    CountedMore(cfg, Replay(cfg, log), name, 0, 0, d);
    ReplayMore(cfg, log1, Take(e));
    CountedMore(cfg, Replay(cfg, log1), name, |d|, 1, e);
    ReplayMore(cfg, log2, Close(true));
    CountedEnds(cfg, Replay(cfg, log2), name, |d| + |e|, 2);
    FourOps(Begin(header), Take(d), Take(e), Close(true));
  }

  lemma {:induction false} ChunksMore(t: Trace, e: Event)
    ensures Chunks(t + [e]) == Chunks(t) + if e.Chunk? then 1 else 0
  {
    assert (t + [e])[..|t + [e]| - 1] == t;
  }
}
