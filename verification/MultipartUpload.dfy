/** A whole upload through the receiver, in whatever pieces it arrives. */
module MultipartUpload {
  import opened Bytes
  import opened MultipartMachine
  import opened MultipartSplit
  import opened MultipartCuts
  import opened MultipartLens
  import opened MultipartExactness
  import opened MultipartHearing
  import opened MultipartPreamble
  import opened MultipartRoundTrip
  import opened PostStream

  /** A handler that never aborts cannot see the cuts. */
  lemma {:induction false} NeverAbortsIsBlind(aborts: Trace -> bool)
    requires NeverAborts(aborts)
    ensures PieceBlind(aborts)
  {
    forall t ensures Steady(aborts, t) {
    }
  }

  /** What the receiver has come to after the octets `w`. */
  ghost predicate CameTo(r: Receiver, w: Bytes)
    reads r, r.hold, r.header
    requires r.holdLen <= r.hold.Length && r.headerLen <= r.header.Length
  {
    var f := Feed(Lens(r.cfg), Initial, 0, w);
    r.Seen() == f.core && r.bufferPos == f.pos == |w|
  }

  /** The handler has heard the beginning of what the octets `w` have for it. */
  ghost predicate HasHeard(r: Receiver, w: Bytes)
    reads r`events
  {
    Begins(Heard(r.events), Feed(Lens(r.cfg), Initial, 0, w).core.book.events)
  }

  /** One more piece. */
  method FeedOne(r: Receiver, ghost before: Bytes, piece: Bytes) returns (outcome: Outcome)
    requires r.Valid() && (r.Measured() ==> CameTo(r, before)) && HasHeard(r, before)
    requires r.bufferPos == |before| && |before| + |piece| <= r.cfg.contentLength
    modifies r, r.hold, r.header
    ensures r.Valid() && r.bufferPos == |before| + |piece|
    ensures (r.Measured() ==> CameTo(r, before + piece)) && HasHeard(r, before + piece)
    ensures |before| + |piece| >= r.cfg.contentLength ==>
              r.AllEnded() && outcome == if r.phase.Epilogue? then Complete else Failed
  {
    Onward(Lens(r.cfg), Heard(r.events), before, piece);
    outcome := r.Feed(piece);
  }

  /** One piece more for the machine, of which the handler has heard the beginning. */
  lemma {:induction false} Onward(cfg: Config, heard: Trace, before: Bytes, piece: Bytes)
    requires |before| + |piece| <= cfg.contentLength
    ensures var first, whole := Feed(cfg, Initial, 0, before), Feed(cfg, Initial, 0, before + piece);
            var second := Feed(cfg, first.core, |before|, piece);
            && whole.core == second.core && whole.pos == second.pos == |before + piece|
            && (Begins(heard, first.core.book.events) ==> Begins(heard, whole.core.book.events))
  {
    FeedSplit(cfg, Initial, 0, before, piece);
    if Begins(heard, Feed(cfg, Initial, 0, before).core.book.events) {
      BeginsFeed(cfg, heard, Feed(cfg, Initial, 0, before).core, |before|, piece);
    }
  }

  lemma {:induction false} BeginsFeed(cfg: Config, t: Trace, c: Core, pos: nat, data: Bytes)
    requires Begins(t, c.book.events)
    ensures Begins(t, Feed(cfg, c, pos, data).core.book.events)
  {
    BeginsRun(cfg, t, c, data, 0, |data|);
    BeginsConclude(cfg, t, RunAll(cfg, c, data), pos + |data|, data);
  }

  /** Where the receiver is after the octets `w`, and what was answered to the last of them. */
  ghost predicate CameAlong(r: Receiver, w: Bytes, outcome: Outcome)
    reads r, r.hold, r.header
  {
    && r.Valid() && r.bufferPos == |w| && HasHeard(r, w)
    && (r.Measured() ==> CameTo(r, w))
    && (|w| >= r.cfg.contentLength ==> r.AllEnded() && outcome == if r.phase.Epilogue? then Complete else Failed)
  }

  method FeedNext(r: Receiver, ghost w: Bytes, piece: Bytes, ghost before: Outcome) returns (outcome: Outcome)
    requires CameAlong(r, w, before) && |w| + |piece| <= r.cfg.contentLength
    modifies r, r.hold, r.header
    ensures CameAlong(r, w + piece, outcome)
  {
    outcome := FeedOne(r, w, piece);
  }

  /** All pieces of a body, one call each: with a handler that is blind to the cuts, and
      with every other that does not abort, they come to what the octets one by one lead to;
      one that aborts has heard the beginning of it. Whatever the handler does, every file has
      its end then, and the upload is complete exactly if the last boundary has been seen; a
      body that breaks off inside a file ends it as one that failed. */
  method FeedAll(r: Receiver, pieces: seq<Bytes>) returns (outcome: Outcome)
    requires r.Valid() && r.State() == Initial && r.bufferPos == 0
    requires pieces != [] && |Joined(pieces)| == r.cfg.contentLength > 0
    modifies r, r.hold, r.header
    ensures CameAlong(r, Joined(pieces), outcome)
    ensures r.AllEnded() && outcome == if r.phase.Epilogue? then Complete else Failed
    ensures r.Measured() ==>
              var c := RunAll(Lens(r.cfg), Initial, Joined(pieces));
              if c.book.started then outcome.Failed? && BrokenOff(c.book, r.Seen().book) else r.Seen() == c
  {
    outcome := More;
    assert pieces[..0] == [];
    for i := 0 to |pieces|
      invariant CameAlong(r, Joined(pieces[..i]), outcome)
    {
      JoinedPrefix(pieces, i);
      outcome := FeedNext(r, Joined(pieces[..i]), pieces[i], outcome);
    }
    assert pieces[..|pieces|] == pieces;
    BodyThrough(Lens(r.cfg), Joined(pieces));
  }

  lemma {:induction false} BodyThrough(cfg: Config, w: Bytes)
    requires |w| >= cfg.contentLength
    ensures var f, c := Feed(cfg, Initial, 0, w), RunAll(cfg, Initial, w);
            if c.book.started then !c.phase.Epilogue? && BrokenOff(c.book, f.core.book) && f.core.phase == c.phase
            else f.core == c
  {
    RunPlaced(cfg, Initial, w, 0, |w|);
    EndOfBody(cfg, RunAll(cfg, Initial, w), |w|, w);
  }

  /** A body through a new receiver. */
  method ReceiveAll(cfg: Config, pieces: seq<Bytes>) returns (r: Receiver, outcome: Outcome)
    requires cfg.Valid() && pieces != [] && |Joined(pieces)| == cfg.contentLength > 0
    ensures fresh(r) && r.Valid() && r.cfg == cfg
    ensures r.Measured() ==> r.Seen() == Feed(Lens(cfg), Initial, 0, Joined(pieces)).core
    ensures outcome == if r.phase.Epilogue? then Complete else Failed
  {
    r := new Receiver(cfg);
    outcome := FeedAll(r, pieces);
  }

  /** One body in two cuttings, through a new receiver each: a handler that is blind to the
      cuts leads both to the same state, with the same entries, aborts and calls but for their
      cuts; every other does unless it aborts. */
  method TwoCuttings(cfg: Config, a: seq<Bytes>, b: seq<Bytes>) returns (r: Receiver, q: Receiver)
    requires cfg.Valid() && a != [] && b != [] && Joined(a) == Joined(b) && |Joined(a)| == cfg.contentLength > 0
    ensures r.Valid() && q.Valid() && r.cfg == q.cfg == cfg
    ensures Blind(cfg) || (!r.aborted && !q.aborted) ==> r.Seen() == q.Seen()
  {
    var x, y;
    r, x := ReceiveAll(cfg, a);
    q, y := ReceiveAll(cfg, b);
  }

  /** From the wire to the request handler: any list of parts, rendered, cut into any pieces
      and fed to a new receiver, is received completely; of the first 64 the handler hears
      every file with its name and its payload, and the upload list is their files in order
      with their names and lengths. */
  method Upload(cfg: Config, ghost lead: Bytes, ghost ss: seq<Section>, ghost epilogue: Bytes, pieces: seq<Bytes>)
      returns (outcome: Outcome, uploads: seq<(Bytes, nat)>, heard: Trace)
    requires cfg.Valid() && NoCR(cfg.boundary) && !cfg.discard && NeverAborts(cfg.aborts)
    requires AllOk(cfg, ss, 0) && pieces != []
    requires ComesFirst(cfg.boundary, lead) && Harmless(cfg, lead)
    requires Joined(pieces) == lead + Render(cfg, ss) + epilogue && |Joined(pieces)| == cfg.contentLength
    ensures outcome == Complete && uploads == FilesIn(cfg, Taken(ss, 0)) && Coalesce(heard) == AllEvents(cfg, Taken(ss, 0))
  {
    NeverAbortsIsBlind(cfg.aborts);
    RoundTrip(cfg, lead, ss, epilogue);
    UploadsExact(cfg, Taken(ss, 0));
    var r;
    r, outcome := ReceiveAll(cfg, pieces);
    heard := r.events;
    uploads := r.FillUploadInfo();
  }
}
