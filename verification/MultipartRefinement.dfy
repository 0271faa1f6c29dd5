/** What the piece-wise loops of the receiver amount to in single octets. */
module MultipartRefinement {
  import opened Bytes
  import opened NeedleScan
  import opened Folding
  import opened MultipartMachine
  import opened MultipartProtocol
  import opened MultipartSplit
  import opened MultipartCuts
  import opened MultipartLens
  import opened MultipartExactness
  import opened MultipartHearing
  import opened MultipartHeader

  /** Both states do the same with the octets still to come. */
  ghost predicate Ahead(cfg: Config, c: Core, p: nat, c': Core, p': nat, data: Bytes)
    requires p <= |data| && p' <= |data|
  {
    Run(cfg, c, data, p, |data|) == Run(cfg, c', data, p', |data|)
  }

  lemma {:induction false} AheadRun(cfg: Config, c: Core, data: Bytes, p: nat, p': nat)
    requires p <= p' <= |data|
    ensures Ahead(cfg, c, p, Run(cfg, c, data, p, p'), p', data)
  {
    FoldSplits(Stepper(cfg), c, data, p, p', |data|);
  }

  lemma {:induction false} AheadStuck(cfg: Config, c: Core, data: Bytes, p: nat)
    requires p < |data| && c.phase.Error?
    ensures Ahead(cfg, c, p + 1, c, p, data)
  {
    FoldStuck(Stepper(cfg), c, data, p, |data|);
    FoldStuck(Stepper(cfg), c, data, p + 1, |data|);
  }

  /** All input taken, or no use for the rest of it. */
  lemma {:induction false} RunRest(cfg: Config, c: Core, c': Core, p: nat, data: Bytes)
    requires p == |data| || (p <= |data| && c'.phase.Error?)
    ensures Ahead(cfg, c, 0, c', p, data) ==> RunAll(cfg, c, data) == c'
  {
    if p < |data| {
      FoldStuck(Stepper(cfg), c', data, p, |data|);
    }
  }

  lemma {:induction false} RunFirst(cfg: Config, c: Core, data: Bytes, p: nat)
    requires p < |data|
    ensures Run(cfg, c, data, p, p + 1) == Step(cfg, c, data[p])
  {
    assert Run(cfg, c, data, p, p) == c;
  }

  /** Opening the header buffer takes no octet of its own. */
  lemma {:induction false} AheadOpen(cfg: Config, c: Core, data: Bytes, p: nat)
    requires p < |data| && c.phase.AfterBoundary?
    ensures Ahead(cfg, c, p, OpenHeader(c), p, data)
  {
    RunFirst(cfg, c, data, p);
    RunFirst(cfg, OpenHeader(c), data, p);
    FoldSplits(Stepper(cfg), c, data, p, p + 1, |data|);
    FoldSplits(Stepper(cfg), OpenHeader(c), data, p, p + 1, |data|);
  }

  /** A finished search of the payload. */
  lemma {:induction false} ScannedRuns(cfg: Config, c: Core, hold: Bytes, out: Bytes, data: Bytes, pos: nat, p: nat, found: bool)
    requires InData(cfg, c) && pos <= p <= |data|
    requires Scanned(cfg.Delim(), c.hold, hold, out, data, pos, p, found)
    ensures Run(cfg, c, data, pos, p) ==
            if found then AtBoundary(cfg, c, out) else Held(cfg, c, out, hold)
  {
    var w := data[pos..p];
    FoldSlice(Stepper(cfg), c, data, pos, p);
    if found {
      assert w[..|w| - 1] == data[pos..p - 1];
      DataFind(cfg, c, w, out);
    } else {
      assert w[..|w|] == w;
      DataRun(cfg, c, w, |w|);
      assert Sure(cfg.Delim(), c.hold + w) == out;
    }
  }

  // ----- preamble -----

  lemma {:induction false} PreambleMore(cfg: Config, c: Core, data: Bytes, pos: nat, p: nat, g: Bytes)
    requires pos <= p < |data| && c.phase.Preamble? && |g| < |cfg.boundary|
    requires Run(cfg, c, data, pos, p) == c.(hold := g)
    ensures Run(cfg, c, data, pos, p + 1) == PreambleStep(cfg, c.(hold := g), data[p])
  {
    assert Run(cfg, c, data, pos, p + 1) == Step(cfg, c.(hold := g), data[p]);
  }

  /** Octets that cannot start the boundary leave nothing held. */
  lemma {:induction false} PreambleSkip(cfg: Config, c: Core, data: Bytes, pos: nat, p: nat, k: nat, g: Bytes)
    requires pos <= p < k <= |data| && c.phase.Preamble? && |g| < |cfg.boundary| && |cfg.boundary| > 1
    requires Run(cfg, c, data, pos, p) == c.(hold := g)
    requires g == [] || cfg.boundary[|g|] != data[p]
    requires forall i :: p <= i < k ==> data[i] != cfg.boundary[0]
    ensures Run(cfg, c, data, pos, k) == c.(hold := [])
    decreases k
  {
    if k == p + 1 {
      PreambleMore(cfg, c, data, pos, p, g);
    } else {
      PreambleSkip(cfg, c, data, pos, p, k - 1, g);
      PreambleMore(cfg, c, data, pos, k - 1, []);
    }
  }

  // ----- part header -----

  lemma {:induction false} HeaderNext(cfg: Config, c: Core, data: Bytes, pos: nat, p: nat, h: Bytes)
    requires pos <= p < |data| && c.phase.PartHeader?
    requires Run(cfg, c, data, pos, p) == c.(header := h)
    ensures Run(cfg, c, data, pos, p + 1) == HeaderStep(cfg, c.(header := h), data[p])
  {
    assert Run(cfg, c, data, pos, p + 1) == Step(cfg, c.(header := h), data[p]);
  }

  datatype Progress = Going | Done | Refused

  /** How far the collection of a header is after data[pos..p], with `h` collected. */
  ghost predicate Collected(cfg: Config, c: Core, data: Bytes, pos: nat, p: nat, h: Bytes, progress: Progress)
    requires pos <= p <= |data|
  {
    match progress
    case Going => Run(cfg, c, data, pos, p) == c.(header := h)
    case Done =>
      Run(cfg, c, data, pos, p) ==
        c.(header := h, book := BeginPart(cfg, c.book, h),
           phase := if Unreadable(cfg, c.book, h) then Error else PartData)
    case Refused => p < |data| && Run(cfg, c, data, pos, p + 1) == c.(header := h, phase := Error)
  }

  lemma {:induction false} CollectMore(cfg: Config, c: Core, data: Bytes, pos: nat, p: nat, h: Bytes, next: Bytes)
    requires pos <= p < |data| && c.phase.PartHeader? && Collected(cfg, c, data, pos, p, h, Going)
    requires |h| + 1 < MAX_PART_HEADER || c.book.aborted
    requires next == Slid(h) + [data[p]]
    ensures Collected(cfg, c, data, pos, p + 1, next, if EndsWith(next, HEADER_END) then Done else Going)
  {
    HeaderNext(cfg, c, data, pos, p, h);
  }

  lemma {:induction false} CollectRefused(cfg: Config, c: Core, data: Bytes, pos: nat, p: nat, h: Bytes)
    requires pos <= p < |data| && c.phase.PartHeader? && Collected(cfg, c, data, pos, p, h, Going)
    requires |h| + 1 >= MAX_PART_HEADER && !c.book.aborted
    ensures Collected(cfg, c, data, pos, p, h, Refused)
  {
    HeaderNext(cfg, c, data, pos, p, h);
  }

  /** The collected header acted upon, with the trace as the handler saw it. */
  lemma {:induction false} HeaderTaken(cfg: Config, c: Core, data: Bytes, pos: nat, p: nat, h: Bytes, progress: Progress, b: Book, b': Book)
    requires pos <= p <= |data| && ClearWay(cfg, b, b') && c.phase.PartHeader? && c.book == Normal(b)
    requires Reached(cfg, b) && Closed(b)
    requires Collected(Lens(cfg), c, data, pos, p, h, progress)
    requires b' == if progress.Done? then BeginPart(cfg, b, h) else b
    ensures var phase := match progress
                         case Going => PartHeader
                         case Refused => Error
                         case Done => if Unreadable(cfg, b, h) then Error else PartData;
            Ahead(Lens(cfg), c, pos, c.(header := h, book := Normal(b'), phase := phase), p, data)
  {
    AheadRun(Lens(cfg), c, data, pos, p);
    match progress
    case Going =>
    case Done =>
      ReachedSound(cfg, b);
      NormalBegin(cfg, b, h);
    case Refused =>
      AheadRun(Lens(cfg), c, data, pos, p + 1);
      AheadStuck(Lens(cfg), c.(header := h, phase := Error), data, p);
  }

  /** Heard after data[pos..p], heard after the rest. */
  lemma {:induction false} HeardOnward(m: Config, t: Trace, c: Core, data: Bytes, pos: nat, p: nat)
    requires pos <= p <= |data| && Begins(Coalesce(t), Run(m, c, data, pos, p).book.events)
    ensures Begins(Heard(t), Run(m, c, data, pos, |data|).book.events)
  {
    FoldSplits(Stepper(m), c, data, pos, p, |data|);
    BeginsRun(m, Coalesce(t), Run(m, c, data, pos, p), data, p, |data|);
    HeardBegins(t, Run(m, c, data, pos, |data|).book.events);
  }

  lemma {:induction false} AbortFromStart(cfg: Config, b: Book, h: Bytes)
    requires !b.aborted && BeginPart(cfg, b, h).aborted
    ensures Coalesce(BeginPart(cfg, b, h).events) == BeginPart(Lens(cfg), Normal(b), h).events
  {
    var m := Lens(cfg);
    assert m.analyse == cfg.analyse && m.discard == cfg.discard;
    BeginCalls(cfg, b, h);
    BeginCalls(m, Normal(b), h);
    CoalescePush(b.events, Start(cfg.analyse(h).file.value));
  }

  lemma {:induction false} BeginCalls(cfg: Config, b: Book, h: Bytes)
    requires !b.aborted
    ensures var d := cfg.analyse(h);
            if d.Names? && d.file.Some? && !cfg.discard
            then BeginPart(cfg, b, h).events == b.events + [Start(d.file.value)]
            else BeginPart(cfg, b, h).events == b.events && !BeginPart(cfg, b, h).aborted
  {
  }

  /** The handler aborts when it hears of the file. */
  lemma {:induction false} HeaderHeard(cfg: Config, c: Core, data: Bytes, pos: nat, p: nat, h: Bytes, progress: Progress, b: Book, b': Book)
    requires pos <= p <= |data| && !b.aborted && b'.aborted && c.book == Normal(b)
    requires Collected(Lens(cfg), c, data, pos, p, h, progress)
    requires b' == if progress.Done? then BeginPart(cfg, b, h) else b
    ensures Begins(Heard(b'.events), Run(Lens(cfg), c, data, pos, |data|).book.events)
  {
    AbortFromStart(cfg, b, h);
    HeardOnward(Lens(cfg), b'.events, c, data, pos, p);
  }

  /** From `c` at `pos` the receiver has come to `c'` at `p` and the handler to the trace
      `t`: on the machine's track, or aborted with the beginning of the machine's calls. */
  ghost predicate Tracked(cfg: Config, c: Core, pos: nat, c': Core, t: Trace, p: nat, data: Bytes)
    requires pos <= |data| && p <= |data|
  {
    && (ClearWay(cfg, c.book, c'.book) ==> Ahead(Lens(cfg), c, pos, c', p, data))
    && (!c.book.aborted && c'.book.aborted ==> Begins(Heard(t), Run(Lens(cfg), c, data, pos, |data|).book.events))
  }

  lemma {:induction false} TrackedOn(cfg: Config, c: Core, c1: Core, t1: Trace, p1: nat, c2: Core, t2: Trace, p2: nat, data: Bytes)
    requires p1 <= |data| && p2 <= |data|
    requires Tracked(cfg, c, 0, c1, t1, p1, data) && Tracked(cfg, c1, p1, c2, t2, p2, data)
    requires c1.book.aborted ==> c2.book.aborted && Calls(t2) == Calls(t1)
    requires c.book.aborted ==> c1.book.aborted
    ensures Tracked(cfg, c, 0, c2, t2, p2, data)
  {
    if ClearWay(cfg, c.book, c2.book) {
      assert ClearWay(cfg, c.book, c1.book) && ClearWay(cfg, c1.book, c2.book);
    }
  }

  /** A search of the payload has ended, with `b` in the receiver's book. */
  lemma {:induction false} DataTaken(cfg: Config, c: Core, hold: Bytes, out: Bytes, data: Bytes, pos: nat, p: nat, found: bool, b: Book)
    requires InData(cfg, c) && InData(Lens(cfg), c) && pos <= p <= |data|
    requires Scanned(cfg.Delim(), c.hold, hold, out, data, pos, p, found)
    requires Follows(cfg, b, c.book, out)
    ensures var at := if found then c.(hold := [], inData := true, phase := DelimCheck) else c.(hold := hold);
            Tracked(cfg, c, pos, at.(book := Normal(b)), b.events, p, data)
  {
    ScannedRuns(Lens(cfg), c, hold, out, data, pos, p, found);
    AheadRun(Lens(cfg), c, data, pos, p);
    if !c.book.aborted && b.aborted {
      HeardOnward(Lens(cfg), b.events, c, data, pos, p);
    }
  }

  /** Nothing is taken, or nothing of it matters. */
  lemma {:induction false} TrackedIdle(cfg: Config, c: Core, t: Trace, pos: nat, p: nat, data: Bytes)
    requires pos <= p <= |data| && (p == pos || (c.phase.Epilogue? && p == |data|))
    ensures Tracked(cfg, c, pos, c, t, p, data)
  {
    if p > pos {
      FoldStuck(Stepper(Lens(cfg)), c, data, pos, |data|);
    }
  }

  /** The header is collected as far as the input goes, and `c'` is where the receiver is then. */
  lemma {:induction false} HeaderTracked(cfg: Config, c: Core, data: Bytes, pos: nat, p: nat, h: Bytes, progress: Progress,
                                         b: Book, b': Book, c': Core)
    requires pos <= p <= |data| && c.phase.PartHeader? && c.book == Normal(b) && Reached(cfg, b) && Closed(b)
    requires Collected(Lens(cfg), c, data, pos, p, h, progress)
    requires b' == if progress.Done? then BeginPart(cfg, b, h) else b
    requires c' == c.(header := h, book := Normal(b'),
                      phase := match progress
                               case Going => PartHeader
                               case Refused => Error
                               case Done => if Unreadable(cfg, b, h) then Error else PartData)
    ensures Tracked(cfg, c, pos, c', b'.events, p, data)
  {
    if ClearWay(cfg, b, b') {
      HeaderTaken(cfg, c, data, pos, p, h, progress, b, b');
    }
    if !b.aborted && b'.aborted {
      HeaderHeard(cfg, c, data, pos, p, h, progress, b, b');
    }
  }

  /** Past a boundary, with the limit on parts. */
  lemma {:induction false} BoundaryTracked(cfg: Config, c: Core, t: Trace, data: Bytes, pos: nat)
    requires pos < |data| && c.phase.AfterBoundary? && c.book.events == Coalesce(t)
    ensures Tracked(cfg, c, pos, OpenHeader(c), t, pos, data)
  {
    AheadOpen(Lens(cfg), c, data, pos);
    HeardOnward(Lens(cfg), t, OpenHeader(c), data, pos, pos);
  }

  /** A run of the machine that nobody hears of. */
  lemma {:induction false} RunTracked(cfg: Config, c: Core, t: Trace, data: Bytes, pos: nat, p: nat)
    requires pos <= p <= |data| && Run(Lens(cfg), c, data, pos, p).book == c.book
    ensures Tracked(cfg, c, pos, Run(Lens(cfg), c, data, pos, p), t, p, data)
  {
    AheadRun(Lens(cfg), c, data, pos, p);
  }

  // ----- behind a boundary -----

  lemma {:induction false} CheckOne(cfg: Config, c: Core, data: Bytes, pos: nat)
    requires pos < |data| && c.phase.DelimCheck? && c.hold == []
    ensures Run(cfg, c, data, pos, pos + 1) == c.(hold := [data[pos]])
  {
    RunFirst(cfg, c, data, pos);
    assert c.hold + [data[pos]] == [data[pos]];
  }

  lemma {:induction false} CheckLast(cfg: Config, c: Core, data: Bytes, pos: nat, p: nat)
    requires pos <= p < |data| && c.phase.DelimCheck? && |c.hold| + (p - pos) == 1
    ensures Run(cfg, c, data, pos, p + 1) == Resolve(cfg, c, c.hold + data[pos..p + 1])
  {
    var z := c.hold + data[pos..p + 1];
    if p == pos {
      RunFirst(cfg, c, data, pos);
      assert c.hold + [data[pos]] == z;
    } else {
      CheckOne(cfg, c, data, pos);
      var d := c.(hold := [data[pos]]);
      assert d.hold + [data[p]] == z;
      assert Run(cfg, c, data, pos, p + 1) == Step(cfg, d, data[p]) == Resolve(cfg, d, z);
    }
  }

  predicate Real(z: Bytes) {
    z == DASHES || z == CRLF
  }

  /** The book was `b` and is `b'` after the octets `z` behind a boundary. */
  ghost predicate Settled(cfg: Config, b: Book, b': Book, inData: bool, z: Bytes) {
    if !inData then b' == b
    else if Real(z) then b' == EndPart(cfg, b, true)
    else Follows(cfg, b', Normal(b), cfg.Delim() + Sure(cfg.Delim(), z))
  }

  lemma {:induction false} SettledBook(cfg: Config, c: Core, z: Bytes, b: Book, b': Book)
    requires Reached(cfg, b) && ClearWay(cfg, b, b') && c.book == Normal(b) && |z| == 2 && Settled(cfg, b, b', c.inData, z)
    ensures Resolve(Lens(cfg), c, z).book == Normal(b')
  {
    if c.inData {
      if Real(z) {
        ReachedSound(cfg, b);
        NormalEnd(cfg, b, true);
      } else {
        PassTwice(Lens(cfg), Normal(b), cfg.Delim(), Sure(cfg.Delim(), z));
        PassSame(cfg, Normal(b), cfg.Delim() + Sure(cfg.Delim(), z));
      }
    }
  }

  lemma {:induction false} CheckTaken(cfg: Config, c: Core, data: Bytes, pos: nat, p: nat, z: Bytes, b: Book, b': Book)
    requires pos < p <= |data| && Reached(cfg, b) && ClearWay(cfg, b, b') && c.phase.DelimCheck? && c.book == Normal(b)
    requires |c.hold| < 2 && z == c.hold + data[pos..p] && |z| == 2
    requires Settled(cfg, b, b', c.inData, z)
    ensures Ahead(Lens(cfg), c, pos, Resolve(Lens(cfg), c, z), p, data)
    ensures Resolve(Lens(cfg), c, z).book == Normal(b')
  {
    CheckAhead(Lens(cfg), c, data, pos, p, z);
    SettledBook(cfg, c, z, b, b');
  }

  lemma {:induction false} CheckAhead(cfg: Config, c: Core, data: Bytes, pos: nat, p: nat, z: Bytes)
    requires pos < p <= |data| && c.phase.DelimCheck? && |c.hold| < 2 && z == c.hold + data[pos..p] && |z| == 2
    ensures Ahead(cfg, c, pos, Resolve(cfg, c, z), p, data)
  {
    AheadRun(cfg, c, data, pos, p);
    CheckLast(cfg, c, data, pos, p - 1);
  }

  /** The handler aborts from the end of the part, or from the payload that was none. */
  lemma {:induction false} SettledHeard(cfg: Config, c: Core, z: Bytes, b: Book, b': Book)
    requires !b.aborted && b'.aborted && c.book == Normal(b) && |z| == 2 && Settled(cfg, b, b', c.inData, z)
    ensures Begins(Coalesce(b'.events), Resolve(Lens(cfg), c, z).book.events)
  {
    if Real(z) {
      CoalescePush(b.events, End(true));
    } else {
      PassTwice(Lens(cfg), Normal(b), cfg.Delim(), Sure(cfg.Delim(), z));
      PassSame(cfg, Normal(b), cfg.Delim() + Sure(cfg.Delim(), z));
    }
  }

  lemma {:induction false} CheckHeard(cfg: Config, c: Core, data: Bytes, pos: nat, p: nat, z: Bytes, b: Book, b': Book)
    requires pos < p <= |data| && !b.aborted && b'.aborted && c.phase.DelimCheck? && c.book == Normal(b)
    requires |c.hold| < 2 && z == c.hold + data[pos..p] && |z| == 2
    requires Settled(cfg, b, b', c.inData, z)
    ensures Begins(Heard(b'.events), Run(Lens(cfg), c, data, pos, |data|).book.events)
  {
    CheckLast(Lens(cfg), c, data, pos, p - 1);
    SettledHeard(cfg, c, z, b, b');
    HeardOnward(Lens(cfg), b'.events, c, data, pos, p);
  }

  /** Both octets are there and acted upon, and `c'` is where the receiver is then. */
  lemma {:induction false} CheckTracked(cfg: Config, c: Core, data: Bytes, pos: nat, p: nat, z: Bytes, b: Book, b': Book, c': Core)
    requires pos < p <= |data| && Reached(cfg, b) && c.phase.DelimCheck? && c.book == Normal(b)
    requires |c.hold| < 2 && z == c.hold + data[pos..p] && |z| == 2
    requires Settled(cfg, b, b', c.inData, z)
    requires c' == c.(hold := if c.inData && !Real(z) then Settle(cfg.Delim(), z) else [], book := Normal(b'),
                      phase := if z == DASHES then Epilogue else if z == CRLF then AfterBoundary
                               else if c.inData then PartData else Preamble)
    ensures Tracked(cfg, c, pos, c', b'.events, p, data)
  {
    if ClearWay(cfg, b, b') {
      CheckTaken(cfg, c, data, pos, p, z, b, b');
      assert c' == Resolve(Lens(cfg), c, z);
    }
    if !b.aborted && b'.aborted {
      CheckHeard(cfg, c, data, pos, p, z, b, b');
    }
  }

  /** Only part of what follows the boundary is there yet. */
  lemma {:induction false} CheckWaits(cfg: Config, c: Core, data: Bytes, pos: nat, p: nat)
    requires pos < p <= |data| && c.phase.DelimCheck? && |c.hold| + (p - pos) < 2
    ensures Ahead(cfg, c, pos, c.(hold := c.hold + data[pos..p]), p, data)
  {
    CheckOne(cfg, c, data, pos);
    assert c.hold + data[pos..p] == [data[pos]];
    AheadRun(cfg, c, data, pos, p);
  }

  lemma {:induction false} NormalFinish(cfg: Config, b: Book, success: bool)
    requires Reached(cfg, b) && ClearWay(cfg, b, Finish(cfg, b, success))
    ensures Normal(Finish(cfg, b, success)) == Finish(Lens(cfg), Normal(b), success)
  {
    if b.started {
      ReachedSound(cfg, b);
      NormalEnd(cfg, b, success);
    }
  }

  lemma {:induction false} FinishTaken(cfg: Config, log: seq<Op>, c: Core, b: Book, success: bool)
    requires b == Replay(cfg, log) && c.book == Normal(b)
    ensures var b' := Finish(cfg, b, success);
            && (ClearWay(cfg, b, b') ==> c.(book := Normal(b')) == c.(book := Finish(Lens(cfg), c.book, success)))
            && (!b.aborted && b'.aborted && !success ==> Calls(b'.events) == b.events)
  {
    assert Reached(cfg, b);
    if ClearWay(cfg, b, Finish(cfg, b, success)) {
      NormalFinish(cfg, b, success);
    }
  }
}
