/** Rendering a list of parts and feeding it to the receiver gives the parts back. */
module MultipartRoundTrip {
  import opened Bytes
  import opened Sequences
  import opened Folding
  import opened MultipartMachine
  import opened MultipartProtocol
  import opened MultipartExactness
  import opened MultipartPreamble
  import opened MultipartHeader

  // ----- whole bodies -----

  /** A part as it stands in the body: the header with its empty line, the payload. */
  datatype Section = Section(head: Bytes, body: Bytes)

  /** It stands as it should: one empty line behind the header, no delimiter in the payload. */
  ghost predicate WellFormed(cfg: Config, s: Section) {
    HeadEnds(s.head) && NoDelimiterBefore(cfg, s.body + CRLF, |s.body|)
  }

  /** And it can be taken: the header fits its buffer and can be read. */
  ghost predicate SectionOk(cfg: Config, s: Section) {
    WellFormed(cfg, s) && |CRLF + s.head| < 8192 && cfg.analyse(CRLF + s.head).Names?
  }

  /** All stand as they should, and those up to the 64th can be taken, `n` of which are
      there already. */
  ghost predicate AllOk(cfg: Config, ss: seq<Section>, n: nat) {
    forall i :: 0 <= i < |ss| ==> WellFormed(cfg, ss[i]) && (n + i < 64 ==> SectionOk(cfg, ss[i]))
  }

  /** The parts that are taken when there are `n` already: the first up to the 64th. */
  function Taken(ss: seq<Section>, n: nat): seq<Section> {
    if n + |ss| <= 64 then ss else if n < 64 then ss[..64 - n] else []
  }

  function RenderFrom(cfg: Config, ss: seq<Section>): Bytes
    requires ss != []
    decreases |ss|
  {
    ss[0].head + ((ss[0].body + (CRLF + cfg.boundary)) +
                  if |ss| == 1 then DASHES else CRLF + RenderFrom(cfg, ss[1..]))
  }

  /** What stands behind the first boundary. */
  function RenderTail(cfg: Config, ss: seq<Section>): Bytes {
    if ss == [] then DASHES else CRLF + RenderFrom(cfg, ss)
  }

  function Render(cfg: Config, ss: seq<Section>): Bytes {
    cfg.boundary + RenderTail(cfg, ss)
  }

  function NameOf(cfg: Config, s: Section): Disposition {
    cfg.analyse(CRLF + s.head)
  }

  /** What the handler should hear of one part, what the part list should hold. */
  function EventsOf(cfg: Config, s: Section): Trace {
    match NameOf(cfg, s)
    case Names(_, Some(file)) => [Start(file)] + (if s.body == [] then [] else [Chunk(s.body)]) + [End(true)]
    case _ => []
  }

  /** What the lists show of a name: all of it, if it has no more than 256 octets. */
  function Listed(name: Bytes): Bytes {
    if |name| <= 256 then name else name[..256]
  }

  function PartOf(cfg: Config, s: Section): Part {
    match NameOf(cfg, s)
    case Names(_, Some(file)) => Part(true, Listed(file), |s.body|, false)
    case Names(Some(field), None) => Part(false, Listed(field), 0, false)
    case _ => Part(false, [], 0, false)
  }

  function AllEvents(cfg: Config, ss: seq<Section>): Trace {
    if ss == [] then [] else EventsOf(cfg, ss[0]) + AllEvents(cfg, ss[1..])
  }

  function AllParts(cfg: Config, ss: seq<Section>): seq<Part> {
    if ss == [] then [] else [PartOf(cfg, ss[0])] + AllParts(cfg, ss[1..])
  }

  ghost predicate NeverAborts(aborts: Trace -> bool) {
    forall t :: !aborts(t)
  }

  ghost predicate Fresh(cfg: Config, b: Book) {
    Closed(b) && !b.aborted && !cfg.discard && NeverAborts(cfg.aborts)
  }

  /** The book after one part was opened, filled and closed. */
  lemma {:induction false} BookOfSection(cfg: Config, b: Book, s: Section)
    requires Fresh(cfg, b) && SectionOk(cfg, s)
    ensures var r := EndPart(cfg, Pass(cfg, BeginPart(cfg, b, CRLF + s.head), s.body), true);
            && Fresh(cfg, r)
            && r.events == b.events + EventsOf(cfg, s)
            && r.parts == b.parts + [PartOf(cfg, s)]
            && r.payload == s.body
  {
    var begun := BeginPart(cfg, b, CRLF + s.head);
    assert [] + s.body == s.body;
    var passed := Pass(cfg, begun, s.body);
    assert passed.parts == begun.parts && passed.payload == s.body;
    assert passed.parts[..|passed.parts| - 1] == b.parts;
    if NameOf(cfg, s).file.Some? {
      var name := NameOf(cfg, s).file.value;
      var t := b.events + [Start(name)];
      assert passed.events == if s.body == [] then t else t + [Chunk(s.body)];
      assert passed.events + [End(true)] == b.events + EventsOf(cfg, s);
    }
  }

  /** The payload may stand before any delimiter: only the CRLF behind it matters. */
  lemma {:induction false} BodyStands(cfg: Config, body: Bytes, x: Bytes)
    requires NoCR(cfg.boundary) && |x| == 2 && NoDelimiterBefore(cfg, body + CRLF, |body|)
    ensures NoDelimiterBefore(cfg, body + cfg.Delim() + x, |body|)
  {
    var delim := cfg.Delim();
    var t := body + delim + x;
    assert OccursAt(delim, t, |body|);
    forall i: nat | i < |body| && DelimiterAt(cfg, t, i) ensures DelimiterAt(cfg, body + CRLF, i) {
      NoOverlap(cfg, t, i, |body|);
      assert t[..|body| + 2] == body + CRLF;
      var k := i + |delim|;
      assert t[i..k] == (body + CRLF)[i..k] && t[k..k + 2] == (body + CRLF)[k..k + 2];
    }
    forall i | 0 <= i < |body| ensures !DelimiterAt(cfg, t, i) {
      assert !DelimiterAt(cfg, body + CRLF, i);
    }
  }

  /** One part of the body, with the delimiter behind it. */
  lemma {:induction false} SectionExact(cfg: Config, c: Core, s: Section, x: Bytes)
    requires NoCR(cfg.boundary) && c.phase.AfterBoundary?
    requires Fresh(cfg, c.book) && |c.book.parts| < 64 && SectionOk(cfg, s)
    requires x == CRLF || x == DASHES
    ensures var r := RunAll(cfg, c, s.head + (s.body + cfg.Delim() + x));
            && r.phase == (if x == DASHES then Epilogue else AfterBoundary)
            && Fresh(cfg, r.book) && r.book.payload == s.body
            && r.book.events == c.book.events + EventsOf(cfg, s)
            && r.book.parts == c.book.parts + [PartOf(cfg, s)]
  {
    var tail := s.body + cfg.Delim() + x;
    FoldConcat(Stepper(cfg), c, s.head, tail);
    HeaderExact(cfg, c, s.head);
    assert Limit(c.book) == c.book;
    var open := RunAll(cfg, c, s.head);
    assert [] + tail == tail;
    BodyStands(cfg, s.body, x);
    DataExact(cfg, open, tail, s.body, x);
    BookOfSection(cfg, c.book, s);
  }

  lemma {:induction false} AllOfMore(cfg: Config, ss: seq<Section>, t: Trace, parts: seq<Part>)
    requires ss != []
    ensures (t + EventsOf(cfg, ss[0])) + AllEvents(cfg, ss[1..]) == t + AllEvents(cfg, ss)
    ensures (parts + [PartOf(cfg, ss[0])]) + AllParts(cfg, ss[1..]) == parts + AllParts(cfg, ss)
  {
  }

  /** A body that breaks off inside a file: the handler hears its start, the payload but for
      the octets that could still have become a delimiter, and that the file failed; and so
      says the list. */
  lemma {:induction false} FileBreaksOff(cfg: Config, c: Core, pos: nat, head: Bytes, w: Bytes, file: Bytes) returns (e: Bytes)
    requires c.phase.AfterBoundary? && Fresh(cfg, c.book) && |c.book.parts| < 64
    requires HeadEnds(head) && |CRLF + head| < 8192
    requires cfg.analyse(CRLF + head).Names? && cfg.analyse(CRLF + head).file == Some(file)
    requires NoDelimiterBefore(cfg, w, |w|) && pos + |head + w| >= cfg.contentLength
    ensures e <= w && |w| < |e| + |cfg.Delim()| + 2
    ensures var f := Feed(cfg, c, pos, head + w);
            && f.outcome == Failed && Closed(f.core.book)
            && f.core.book.events == c.book.events + [Start(file)] + (if e == [] then [] else [Chunk(e)]) + [End(false)]
            && f.core.book.parts == c.book.parts + [Part(true, Listed(file), |e|, true)]
  {
    FoldConcat(Stepper(cfg), c, head, w);
    HeaderExact(cfg, c, head);
    assert Limit(c.book) == c.book;
    assert [] + w == w;
    e := DataConserved(cfg, RunAll(cfg, c, head), w);
    OpenBreaksOff(cfg, c.book, CRLF + head, file, e);
  }

  lemma {:induction false} OpenBreaksOff(cfg: Config, b: Book, header: Bytes, file: Bytes, e: Bytes)
    requires Fresh(cfg, b) && cfg.analyse(header).Names? && cfg.analyse(header).file == Some(file)
    ensures var r := Pass(cfg, BeginPart(cfg, b, header), e);
            var f := Finish(cfg, r, false);
            && r.started && Closed(f)
            && f.events == b.events + [Start(file)] + (if e == [] then [] else [Chunk(e)]) + [End(false)]
            && f.parts == b.parts + [Part(true, Listed(file), |e|, true)]
  {
    var r := Pass(cfg, BeginPart(cfg, b, header), e);
    assert r.parts[..|r.parts| - 1] == b.parts;
    assert [] + e == e;
    assert r.events == b.events + [Start(file)] + (if e == [] then [] else [Chunk(e)]);
  }

  /** A part that is dropped, whatever its header: nobody hears of it. */
  lemma {:induction false} SectionDropped(cfg: Config, c: Core, s: Section, x: Bytes)
    requires NoCR(cfg.boundary) && c.phase.AfterBoundary?
    requires Closed(c.book) && Dropping(c.book) && WellFormed(cfg, s)
    requires x == CRLF || x == DASHES
    ensures var r := RunAll(cfg, c, s.head + (s.body + cfg.Delim() + x));
            && r.phase == (if x == DASHES then Epilogue else AfterBoundary)
            && r.book == c.book.(aborted := true)
  {
    var tail := s.body + cfg.Delim() + x;
    FoldConcat(Stepper(cfg), c, s.head, tail);
    HeaderDecides(cfg, c, s.head);
    var open := RunAll(cfg, c, s.head);
    assert [] + tail == tail;
    BodyStands(cfg, s.body, x);
    DataExact(cfg, open, tail, s.body, x);
  }

  /** The first of several parts, and the rest behind it. */
  lemma {:induction false} FirstAndRest(cfg: Config, c: Core, ss: seq<Section>)
    requires |ss| > 1
    ensures RunAll(cfg, c, RenderFrom(cfg, ss)) ==
            RunAll(cfg, RunAll(cfg, c, ss[0].head + (ss[0].body + cfg.Delim() + CRLF)), RenderFrom(cfg, ss[1..]))
  {
    var first := ss[0].head + (ss[0].body + cfg.Delim() + CRLF);
    var later := RenderFrom(cfg, ss[1..]);
    assert RenderFrom(cfg, ss) == first + later;
    FoldConcat(Stepper(cfg), c, first, later);
  }

  lemma {:induction false} SectionsDropped(cfg: Config, c: Core, ss: seq<Section>)
    requires NoCR(cfg.boundary) && c.phase.AfterBoundary? && ss != []
    requires Closed(c.book) && Dropping(c.book) && AllOk(cfg, ss, 64)
    ensures var r := RunAll(cfg, c, RenderFrom(cfg, ss));
            r.phase.Epilogue? && r.book == c.book.(aborted := true)
    decreases |ss|
  {
    if |ss| == 1 {
      SectionDropped(cfg, c, ss[0], DASHES);
    } else {
      SectionDropped(cfg, c, ss[0], CRLF);
      FirstAndRest(cfg, c, ss);
      var first := ss[0].head + (ss[0].body + cfg.Delim() + CRLF);
      SectionsDropped(cfg, RunAll(cfg, c, first), ss[1..]);
    }
  }

  lemma {:induction false} TakenMore(cfg: Config, ss: seq<Section>, n: nat)
    requires ss != [] && n < 64 && AllOk(cfg, ss, n)
    ensures Taken(ss, n) != [] && Taken(ss, n)[0] == ss[0] && Taken(ss, n)[1..] == Taken(ss[1..], n + 1)
    ensures SectionOk(cfg, ss[0]) && AllOk(cfg, ss[1..], n + 1)
  {
  }

  lemma {:induction false} SectionsExact(cfg: Config, c: Core, ss: seq<Section>)
    requires NoCR(cfg.boundary) && c.phase.AfterBoundary? && ss != []
    requires Fresh(cfg, c.book) && |c.book.parts| <= 64 && AllOk(cfg, ss, |c.book.parts|)
    ensures var r, taken := RunAll(cfg, c, RenderFrom(cfg, ss)), Taken(ss, |c.book.parts|);
            && r.phase.Epilogue? && Closed(r.book)
            && r.book.events == c.book.events + AllEvents(cfg, taken)
            && r.book.parts == c.book.parts + AllParts(cfg, taken)
    decreases |ss|
  {
    var n := |c.book.parts|;
    if n == 64 {
      SectionsDropped(cfg, c, ss);
    } else {
      TakenMore(cfg, ss, n);
      AllOfMore(cfg, Taken(ss, n), c.book.events, c.book.parts);
      if |ss| == 1 {
        SectionExact(cfg, c, ss[0], DASHES);
        assert Taken(ss, n)[1..] == [];
      } else {
        SectionExact(cfg, c, ss[0], CRLF);
        FirstAndRest(cfg, c, ss);
        var first := ss[0].head + (ss[0].body + cfg.Delim() + CRLF);
        SectionsExact(cfg, RunAll(cfg, c, first), ss[1..]);
      }
    }
  }

  /** Round trip: any list of parts, rendered behind any lead that does not hide the
      boundary and before any epilogue, is received completely; the first 64 of them with
      every payload unchanged, every call to the handler in order and every part in the
      list, those behind them without a trace and without an error, whatever their headers. */
  lemma {:induction false} RoundTrip(cfg: Config, lead: Bytes, ss: seq<Section>, epilogue: Bytes)
    requires cfg.Valid() && NoCR(cfg.boundary) && !cfg.discard && NeverAborts(cfg.aborts)
    requires AllOk(cfg, ss, 0)
    requires ComesFirst(cfg.boundary, lead) && Harmless(cfg, lead)
    requires cfg.contentLength == |lead + Render(cfg, ss) + epilogue|
    ensures var r := Feed(cfg, Initial, 0, lead + Render(cfg, ss) + epilogue);
            && r.outcome == Complete
            && r.core.book.events == AllEvents(cfg, Taken(ss, 0))
            && r.core.book.parts == AllParts(cfg, Taken(ss, 0))
  {
    var f, tail := Stepper(cfg), RenderTail(cfg, ss);
    var c := Initial.(inData := false, phase := DelimCheck);
    Concat(lead, cfg.boundary, tail);
    FoldConcat(f, Initial, lead + Render(cfg, ss), epilogue);
    FoldConcat(f, Initial, lead + cfg.boundary, tail);
    BoundaryFoundIff(cfg, Initial, lead);
    TailExact(cfg, c, ss);
    RunStuck(cfg, RunAll(cfg, c, tail), epilogue);
  }

  lemma {:induction false} TailExact(cfg: Config, c: Core, ss: seq<Section>)
    requires cfg.Valid() && NoCR(cfg.boundary) && !cfg.discard && NeverAborts(cfg.aborts)
    requires AllOk(cfg, ss, 0)
    requires c == Initial.(inData := false, phase := DelimCheck)
    ensures var r := RunAll(cfg, c, RenderTail(cfg, ss));
            && r.phase.Epilogue?
            && r.book.events == AllEvents(cfg, Taken(ss, 0))
            && r.book.parts == AllParts(cfg, Taken(ss, 0))
  {
    var f := Stepper(cfg);
    var x := if ss == [] then DASHES else CRLF;
    RunTwo(cfg, c, x[0], x[1]);
    assert x == [x[0], x[1]];
    if ss != [] {
      FoldConcat(f, c, CRLF, RenderFrom(cfg, ss));
      SectionsExact(cfg, RunAll(cfg, c, CRLF), ss);
      var taken := Taken(ss, 0);
      assert [] + AllEvents(cfg, taken) == AllEvents(cfg, taken);
      assert [] + AllParts(cfg, taken) == AllParts(cfg, taken);
    }
  }

  /** The list the request handler gets for a rendered body: its files, in order. */
  function FilesIn(cfg: Config, ss: seq<Section>): seq<(Bytes, nat)>
    decreases |ss|
  {
    if ss == [] then []
    else
      var s := ss[|ss| - 1];
      FilesIn(cfg, ss[..|ss| - 1]) +
      match NameOf(cfg, s)
      case Names(_, Some(file)) => [(Listed(file), |s.body|)]
      case _ => []
  }

  lemma {:induction false} AllPartsLast(cfg: Config, ss: seq<Section>)
    requires ss != []
    ensures var n := |ss| - 1; AllParts(cfg, ss) == AllParts(cfg, ss[..n]) + [PartOf(cfg, ss[n])]
    decreases |ss|
  {
    var n := |ss| - 1;
    if n == 0 {
      assert ss[1..] == [] && ss[..0] == [];
    } else {
      AllPartsLast(cfg, ss[1..]);
      assert ss[1..][..n - 1] == ss[..n][1..];
      assert ss[..n][0] == ss[0];
    }
  }

  /** The upload list of a rendered body. */
  lemma {:induction false} UploadsExact(cfg: Config, ss: seq<Section>)
    requires forall i :: 0 <= i < |ss| ==> SectionOk(cfg, ss[i])
    ensures Kept(Files(AllParts(cfg, ss))) == FilesIn(cfg, ss)
    decreases |ss|
  {
    if ss != [] {
      var n := |ss| - 1;
      AllPartsLast(cfg, ss);
      UploadsExact(cfg, ss[..n]);
      var parts := AllParts(cfg, ss[..n]);
      assert (parts + [PartOf(cfg, ss[n])])[..|parts|] == parts;
      assert SectionOk(cfg, ss[n]);
      if PartOf(cfg, ss[n]).isFile {
        var f := Finished(PartOf(cfg, ss[n]).name, |ss[n].body|, true);
        assert (Files(parts) + [f])[..|Files(parts)|] == Files(parts);
      }
    }
  }

  /** A preamble whose last line is not ended may hide the first boundary: what is
      held is dropped on a mismatch, although its end could start the boundary. */
  lemma {:induction false} PreambleCanHideBoundary(cfg: Config)
    requires cfg.boundary == [DASH, DASH, 66]
    ensures RunAll(cfg, Initial, [DASH] + cfg.boundary + CRLF).phase.Preamble?
  {
    var w := [DASH] + cfg.boundary + CRLF;
    assert w == [DASH, DASH, DASH, 66, CR, LF];
    var h1 := Initial.(hold := [DASH]);
    var h2 := Initial.(hold := [DASH, DASH]);
    assert Run(cfg, Initial, w, 0, 1) == PreambleStep(cfg, Initial, DASH) == h1;
    assert Run(cfg, Initial, w, 0, 2) == PreambleStep(cfg, h1, DASH) == h2;
    assert Run(cfg, Initial, w, 0, 3) == PreambleStep(cfg, h2, DASH) == h1;
    assert Run(cfg, Initial, w, 0, 4) == PreambleStep(cfg, h1, 66) == Initial;
    assert Run(cfg, Initial, w, 0, 5) == PreambleStep(cfg, Initial, CR) == Initial;
    assert Run(cfg, Initial, w, 0, 6) == PreambleStep(cfg, Initial, LF) == Initial;
  }
}
