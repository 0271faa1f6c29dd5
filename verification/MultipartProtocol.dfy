/** What every operation of the multipart receiver keeps, whatever the handler
    does and however the body is cut: the callback protocol, the silence after an
    abort and the upload list. */
module MultipartProtocol {
  import opened Bytes
  import opened MultipartMachine

  /** A file part the handler has seen the end of. */
  datatype Finished = Finished(name: Bytes, length: nat, ok: bool)

  /** What a trace says about the file parts, or that it breaks the protocol
      (start chunk* end)*. A part is ok if its end reported success and the
      handler did not abort from within that very call. */
  datatype Story = Broken | Story(done: seq<Finished>, running: Option<Finished>)

  function Tell(aborts: Trace -> bool, t: Trace): Story
    decreases |t|
  {
    if t == [] then Story([], None)
    else
      match Tell(aborts, t[..|t| - 1])
      case Broken => Broken
      case Story(done, running) =>
        match t[|t| - 1]
        case Start(name) =>
          if running.Some? then Broken else Story(done, Some(Finished(Cut(name), 0, true)))
        case Chunk(d) =>
          if running.None? then Broken
          else Story(done, Some(running.value.(length := running.value.length + |d|)))
        case End(success) =>
          if running.None? then Broken
          else Story(done + [running.value.(ok := success && !aborts(t))], None)
  }

  lemma {:induction false} TellMore(aborts: Trace -> bool, t: Trace, e: Event)
    ensures (t + [e])[..|t + [e]| - 1] == t && (t + [e])[|t + [e]| - 1] == e
  {
  }

  /** Once the handler has asked for an abort, it only hears that a part failed. */
  ghost predicate HushedFrom(aborts: Trace -> bool, t: Trace, i: int)
    requires 0 < i <= |t|
  {
    aborts(t[..i]) ==> forall j :: i <= j < |t| ==> t[j] == End(false)
  }

  ghost predicate Hushed(aborts: Trace -> bool, t: Trace) {
    forall i :: 0 < i <= |t| ==> HushedFrom(aborts, t, i)
  }

  ghost predicate AbortAsked(aborts: Trace -> bool, t: Trace) {
    exists i :: 0 < i <= |t| && aborts(t[..i])
  }

  /** The finished files among the entries of the part list. */
  function Files(parts: seq<Part>): seq<Finished>
    decreases |parts|
  {
    if parts == [] then []
    else
      var p := parts[|parts| - 1];
      var before := Files(parts[..|parts| - 1]);
      if p.isFile then before + [Finished(p.name, p.length, !p.failed)] else before
  }

  function ClosedParts(b: Book): seq<Part> {
    if b.current && b.parts != [] then b.parts[..|b.parts| - 1] else b.parts
  }

  ghost predicate Shape(cfg: Config, b: Book) {
    && (b.started ==> b.isFile && b.current)
    && (b.isFile && !cfg.discard ==> b.started)
    && (b.current ==> b.parts != [] && !cfg.discard && b.parts[|b.parts| - 1].isFile == b.isFile)
    && (b.current ==> b.parts[|b.parts| - 1].length == 0 && !b.parts[|b.parts| - 1].failed)
    && (b.isFile ==> b.received == |b.payload|)
    && (cfg.discard ==> b.parts == [] && b.events == [])
  }

  ghost predicate Truthful(cfg: Config, b: Book) {
    var s := Tell(cfg.aborts, b.events);
    && s.Story?
    && s.done == Files(ClosedParts(b))
    && s.running.Some? == b.started
    && (b.started ==> b.parts != [] && s.running.value == Finished(b.parts[|b.parts| - 1].name, b.received, true))
  }

  ghost predicate Silent(cfg: Config, b: Book) {
    && Hushed(cfg.aborts, b.events)
    && (AbortAsked(cfg.aborts, b.events) ==> b.aborted)
  }

  /** The invariant of every run: the book is consistent, says what the handler
      was told, and after an abort nothing but failed ends was told. */
  ghost predicate Inv(cfg: Config, b: Book) {
    Shape(cfg, b) && Truthful(cfg, b) && Silent(cfg, b)
  }

  /** No part is open outside the payload. */
  ghost predicate Closed(b: Book) {
    !b.current && !b.isFile && !b.started
  }

  ghost predicate PartOpen(c: Core) {
    c.phase.PartData? || (c.phase.DelimCheck? && c.inData)
  }

  ghost predicate Placed(cfg: Config, c: Core) {
    Shape(cfg, c.book) && (!PartOpen(c) ==> Closed(c.book))
  }

  lemma {:induction false} EmptyBookInv(cfg: Config)
    ensures Inv(cfg, EmptyBook) && Closed(EmptyBook)
  {
  }

  // ----- each operation keeps it -----

  /** One more event keeps the silence if it is a failed end or comes before any abort. */
  lemma {:induction false} SilentMore(cfg: Config, b: Book, e: Event)
    requires Silent(cfg, b) && (b.aborted ==> e == End(false))
    ensures var t := b.events + [e];
            && Hushed(cfg.aborts, t)
            && (AbortAsked(cfg.aborts, t) ==> b.aborted || cfg.aborts(t))
  {
    var t := b.events + [e];
    forall i | 0 < i <= |t| ensures HushedFrom(cfg.aborts, t, i) {
      if i <= |b.events| {
        assert t[..i] == b.events[..i];
        assert HushedFrom(cfg.aborts, b.events, i);
      }
    }
    if AbortAsked(cfg.aborts, t) {
      var i :| 0 < i <= |t| && cfg.aborts(t[..i]);
      if i <= |b.events| {
        assert t[..i] == b.events[..i];
      } else {
        assert t[..i] == t;
      }
    }
  }

  lemma {:induction false} EmitInv(cfg: Config, b: Book, d: Bytes)
    requires Inv(cfg, b)
    ensures Inv(cfg, Emit(cfg, b, d))
  {
    if d != [] && !b.aborted && b.isFile && !cfg.discard {
      SilentMore(cfg, b, Chunk(d));
      TellMore(cfg.aborts, b.events, Chunk(d));
    }
  }

  lemma {:induction false} BeginShape(cfg: Config, b: Book, header: Bytes)
    requires Shape(cfg, b) && Closed(b)
    ensures var r := BeginPart(cfg, b, header);
            Shape(cfg, r) && (Unreadable(cfg, b, header) ==> Closed(r))
  {
  }

  lemma {:induction false} BeginTruthful(cfg: Config, b: Book, header: Bytes)
    requires Truthful(cfg, b) && Closed(b)
    ensures Truthful(cfg, BeginPart(cfg, b, header))
  {
    var r := BeginPart(cfg, b, header);
    if !b.aborted && cfg.analyse(header).Names? && !cfg.discard {
      assert r.parts[..|r.parts| - 1] == b.parts;
      if cfg.analyse(header).file.Some? {
        TellMore(cfg.aborts, b.events, Start(cfg.analyse(header).file.value));
      }
    }
  }

  lemma {:induction false} BeginSilent(cfg: Config, b: Book, header: Bytes)
    requires Silent(cfg, b)
    ensures Silent(cfg, BeginPart(cfg, b, header))
  {
    if !b.aborted && cfg.analyse(header).Names? && !cfg.discard && cfg.analyse(header).file.Some? {
      SilentMore(cfg, b, Start(cfg.analyse(header).file.value));
    }
  }

  lemma {:induction false} BeginInv(cfg: Config, b: Book, header: Bytes)
    requires Inv(cfg, b) && Closed(b)
    ensures Inv(cfg, BeginPart(cfg, b, header))
  {
    BeginShape(cfg, b, header);
    BeginTruthful(cfg, b, header);
    BeginSilent(cfg, b, header);
  }

  lemma {:induction false} EndShape(cfg: Config, b: Book, success: bool)
    requires Shape(cfg, b)
    ensures var r := EndPart(cfg, b, success); Shape(cfg, r) && Closed(r)
  {
  }

  lemma {:induction false} FilesMore(parts: seq<Part>, p: Part)
    ensures Files(parts + [p]) == Files(parts) + if p.isFile then [Finished(p.name, p.length, !p.failed)] else []
  {
    assert (parts + [p])[..|parts|] == parts;
  }

  lemma {:induction false} TellEnded(aborts: Trace -> bool, t: Trace, success: bool)
    requires Tell(aborts, t).Story? && Tell(aborts, t).running.Some?
    ensures var s, u := Tell(aborts, t), t + [End(success)];
            Tell(aborts, u) == Story(s.done + [s.running.value.(ok := success && !aborts(u))], None)
  {
    TellMore(aborts, t, End(success));
  }

  lemma {:induction false} EndTruthful(cfg: Config, b: Book, success: bool)
    requires Shape(cfg, b) && Truthful(cfg, b)
    ensures Truthful(cfg, EndPart(cfg, b, success))
  {
    var n, e := |b.parts| - 1, success && !b.aborted;
    if b.started {
      TellEnded(cfg.aborts, b.events, e);
      FilesMore(b.parts[..n], EndPart(cfg, b, success).parts[n]);
    } else if b.current {
      FilesMore(b.parts[..n], b.parts[n]);
      assert b.parts == b.parts[..n] + [b.parts[n]];
    }
  }

  lemma {:induction false} EndSilent(cfg: Config, b: Book, success: bool)
    requires Silent(cfg, b)
    ensures Silent(cfg, EndPart(cfg, b, success))
  {
    SilentMore(cfg, b, End(success && !b.aborted));
  }

  // ----- every run -----

  /** The operations on the book; a part is only begun when none is open. */
  datatype Op = Take(data: Bytes) | Begin(header: Bytes) | Close(success: bool) | Check

  ghost function Apply(cfg: Config, b: Book, op: Op): Book {
    match op
    case Take(d) => Emit(cfg, b, d)
    case Begin(header) => if Closed(b) then BeginPart(cfg, b, header) else b
    case Close(success) => EndPart(cfg, b, success)
    case Check => Limit(b)
  }

  /** The book after any sequence of operations. */
  ghost function Replay(cfg: Config, log: seq<Op>): Book
    decreases |log|
  {
    if log == [] then EmptyBook else Apply(cfg, Replay(cfg, log[..|log| - 1]), log[|log| - 1])
  }

  lemma {:induction false} ReplayMore(cfg: Config, log: seq<Op>, op: Op)
    ensures Replay(cfg, log + [op]) == Apply(cfg, Replay(cfg, log), op)
  {
    assert (log + [op])[..|log|] == log;
  }

  /** Callback protocol, silence after an abort and truthful part list, over every
      run, for every handler and every reading of the part headers. */
  lemma {:induction false} ReplayInv(cfg: Config, log: seq<Op>)
    ensures Inv(cfg, Replay(cfg, log))
    decreases |log|
  {
    if log == [] {
      EmptyBookInv(cfg);
    } else {
      var b := Replay(cfg, log[..|log| - 1]);
      ReplayInv(cfg, log[..|log| - 1]);
      match log[|log| - 1]
      case Take(d) => EmitInv(cfg, b, d);
      case Begin(header) =>
        if Closed(b) {
          BeginInv(cfg, b, header);
        }
      case Close(success) =>
        EndShape(cfg, b, success);
        EndTruthful(cfg, b, success);
        EndSilent(cfg, b, success);
      case Check =>
    }
  }

  lemma {:induction false} EndCloses(cfg: Config, log: seq<Op>, success: bool)
    ensures Closed(EndPart(cfg, Replay(cfg, log), success))
  {
    ReplayInv(cfg, log);
    EndShape(cfg, Replay(cfg, log), success);
  }

  /** The entry of a closed part is never altered again, by no operation. */
  lemma {:induction false} EntriesStay(cfg: Config, log: seq<Op>, op: Op)
    ensures ClosedParts(Replay(cfg, log)) <= ClosedParts(Apply(cfg, Replay(cfg, log), op))
  {
    var b := Replay(cfg, log);
    ReplayInv(cfg, log);
    var r := Apply(cfg, b, op);
    if op.Begin? && Closed(b) && r.current {
      assert r.parts[..|r.parts| - 1] == b.parts;
    }
  }

  // ----- what the invariant gives -----

  function Kept(done: seq<Finished>): seq<(Bytes, nat)>
    decreases |done|
  {
    if done == [] then []
    else
      var f := done[|done| - 1];
      Kept(done[..|done| - 1]) + if f.ok then [(f.name, f.length)] else []
  }

  /** The upload list by the trace: in body order, the files whose end reported
      success and was not followed by an abort, with the octets of their chunks. */
  function Reported(aborts: Trace -> bool, t: Trace): seq<(Bytes, nat)> {
    match Tell(aborts, t)
    case Broken => []
    case Story(done, _) => Kept(done)
  }

  /** Upload list: with no part open it is exactly the trace's list of files that
      ended well, and a discarded request has none and no calls either. */
  lemma {:induction false} ReplayReported(cfg: Config, log: seq<Op>)
    ensures var b := Replay(cfg, log);
            && (!b.current ==> Kept(Files(b.parts)) == Reported(cfg.aborts, b.events))
            && (cfg.discard ==> b.parts == [] && b.events == [])
  {
    ReplayInv(cfg, log);
  }
}
