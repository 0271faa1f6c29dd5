/** The streaming multipart/form-data receiver as a machine over single octets.

    `Core` holds every field of the connection that the receiver works on, except
    the buffers of form fields. The operations on it are those of the receiver
    (pass payload on, open a part, close a part); `Step` says what one octet does
    and `Run` what a stretch of octets does. The class PostStream.Receiver works
    on whole pieces of input and is proved to do the same. */
module MultipartMachine {
  import opened Bytes
  import opened NeedleScan
  import opened Folding

  const MAX_PARTS := 64
  const MAX_PART_HEADER := 8192
  const MAX_NAME := 256

  const HEADER_END: Bytes := [CR, LF, CR, LF]

  /** A call to the upload handler. */
  datatype Event =
    | Start(fileName: Bytes)
    | Chunk(data: Bytes)
    | End(success: bool)

  type Trace = seq<Event>

  /** What the part header says: unusable, or the two names of its disposition. */
  datatype Disposition =
    | Malformed
    | Names(field: Option<Bytes>, file: Option<Bytes>)

  /** Everything fixed for one request. `aborts(t)` says whether the handler asks
      for an abort from within the last call of `t`; `analyse` is the reading of a
      complete part header. Both are arbitrary. */
  datatype Config = Config(
    boundary: Bytes,
    contentLength: nat,
    discard: bool,
    analyse: Bytes -> Disposition,
    aborts: Trace -> bool)
  {
    function Delim(): Bytes { CRLF + boundary }

    /** The header parser puts two dashes in front of the boundary parameter. */
    ghost predicate Valid() { DASHES <= boundary }
  }

  datatype Phase = Preamble | AfterBoundary | PartHeader | PartData | DelimCheck | Epilogue | Error

  /** An entry of the part list; `length` is that of a file, 0 for a form field. */
  datatype Part = Part(isFile: bool, name: Bytes, length: nat, failed: bool)

  /** What is known about the parts and what the handler has been told. */
  datatype Book = Book(
    isFile: bool,
    current: bool,        // the newest entry of `parts` is the open part
    parts: seq<Part>,     // in body order
    started: bool,
    aborted: bool,
    received: nat,
    payload: Bytes,       // all that was passed on for the open part, file or field
    events: Trace)

  /** The receiver: where it is in the body, and its book. */
  datatype Core = Core(phase: Phase, hold: Bytes, inData: bool, header: Bytes, book: Book)

  /** A name as it goes into the part list. */
  function Cut(name: Bytes): Bytes {
    if |name| <= MAX_NAME then name else name[..MAX_NAME]
  }

  /** All of it, if it has no more than 256 octets. */
  lemma {:induction false} CutExact(name: Bytes)
    ensures |name| <= 256 ==> Cut(name) == name
    ensures |name| > 256 ==> Cut(name) == name[..256]
  {
  }

  // ----- the trace without its cuts -----

  function Push(t: Trace, e: Event): Trace {
    if e.Chunk? && t != [] && t[|t| - 1].Chunk?
    then t[..|t| - 1] + [Chunk(t[|t| - 1].data + e.data)]
    else t + [e]
  }

  /** Neighbouring chunks joined. */
  function Coalesce(t: Trace): Trace
    decreases |t|
  {
    if t == [] then [] else Push(Coalesce(t[..|t| - 1]), t[|t| - 1])
  }

  lemma {:induction false} CoalescePush(t: Trace, e: Event)
    ensures Coalesce(t + [e]) == Push(Coalesce(t), e)
  {
    assert (t + [e])[..|t|] == t;
  }

  /** The handler neither aborts from within a chunk call nor decides by how the
      payload was cut into chunks. */
  ghost predicate Steady(aborts: Trace -> bool, t: Trace) {
    && aborts(t) == aborts(Coalesce(t))
    && (t != [] && t[|t| - 1].Chunk? ==> !aborts(t))
  }

  ghost predicate PieceBlind(aborts: Trace -> bool) {
    forall t :: Steady(aborts, t)
  }

  function Normal(b: Book): Book {
    b.(events := Coalesce(b.events))
  }

  function NormalCore(c: Core): Core {
    c.(book := Normal(c.book))
  }

  // ----- operations -----

  /** Pass payload of the open part on, as one chunk. */
  function Emit(cfg: Config, b: Book, d: Bytes): Book {
    if d == [] || b.aborted then b
    else if !b.isFile then b.(payload := b.payload + d)
    else
      var counted := b.(received := b.received + |d|, payload := b.payload + d);
      if cfg.discard then counted
      else
        var t := b.events + [Chunk(d)];
        counted.(events := t, aborted := cfg.aborts(t))
  }

  /** The same seen without the cuts, for a handler that is blind to them. */
  function Pass(cfg: Config, b: Book, d: Bytes): Book {
    if d == [] || b.aborted then b
    else if !b.isFile then b.(payload := b.payload + d)
    else
      var counted := b.(received := b.received + |d|, payload := b.payload + d);
      if cfg.discard then counted else counted.(events := Push(b.events, Chunk(d)))
  }

  /** The header decides nothing any more after an abort. */
  predicate Unreadable(cfg: Config, b: Book, header: Bytes) {
    !b.aborted && cfg.analyse(header).Malformed?
  }

  /** A new entry in the part list. */
  function Enter(b: Book, name: Bytes): Book {
    b.(parts := b.parts + [Part(b.isFile, Cut(name), 0, false)], current := true)
  }

  /** The handler hears of a new file. */
  function Announce(cfg: Config, b: Book, file: Bytes): Book {
    var t := b.events + [Start(file)];
    b.(started := true, events := t, aborted := cfg.aborts(t))
  }

  /** A part with the given names, with no entry and no call in a discarded request. */
  function OpenPart(cfg: Config, b: Book, field: Option<Bytes>, file: Option<Bytes>): Book {
    var begun := b.(isFile := file.Some?, received := 0, payload := []);
    if cfg.discard then begun
    else if file.Some? then Announce(cfg, Enter(begun, file.value), file.value)
    else Enter(begun, if field.Some? then field.value else [])
  }

  function BeginPart(cfg: Config, b: Book, header: Bytes): Book {
    var none := b.(current := false);
    if b.aborted then none.(isFile := false)
    else
      match cfg.analyse(header)
      case Malformed => none
      case Names(field, file) => OpenPart(cfg, none, field, file)
  }

  /** The handler hears the end of an open file. */
  function TellEnd(cfg: Config, b: Book, success: bool): Book {
    if b.isFile && b.started then
      var t := b.events + [End(success && !b.aborted)];
      b.(started := false, events := t, aborted := b.aborted || cfg.aborts(t))
    else b
  }

  /** The result goes into the entry of the open part; the part is closed. */
  function NoteEnd(b: Book, success: bool): Book {
    var n := |b.parts| - 1;
    var parts :=
      if b.current && n >= 0 && b.parts[n].isFile then
        b.parts[..n] + [b.parts[n].(length := b.received, failed := b.parts[n].failed || !success || b.aborted)]
      else b.parts;
    b.(parts := parts, current := false, isFile := false)
  }

  function EndPart(cfg: Config, b: Book, success: bool): Book {
    NoteEnd(TellEnd(cfg, b, success), success)
  }

  /** Connection lost or body too short: an open part still gets its end. */
  function Finish(cfg: Config, b: Book, success: bool): Book {
    if b.started then EndPart(cfg, b, success) else b
  }

  /** Parts beyond the limit end the upload. */
  function Limit(b: Book): Book {
    b.(aborted := b.aborted || |b.parts| >= MAX_PARTS)
  }

  /** Past a boundary: refuse parts beyond the limit, start a new header. */
  function OpenHeader(c: Core): Core {
    c.(phase := PartHeader, hold := [], header := CRLF, book := Limit(c.book))
  }

  // ----- one octet -----

  function SkipHold(needle: Bytes, hold: Bytes, b: byte): Bytes
    requires |hold| < |needle|
  {
    if needle[|hold|] == b then hold + [b] else if needle[0] == b then [b] else []
  }

  function PreambleStep(cfg: Config, c: Core, b: byte): Core
    requires |c.hold| < |cfg.boundary|
  {
    var h := SkipHold(cfg.boundary, c.hold, b);
    if |h| == |cfg.boundary| then c.(hold := [], inData := false, phase := DelimCheck) else c.(hold := h)
  }

  function HeaderStep(cfg: Config, c: Core, b: byte): Core {
    if |c.header| + 1 >= MAX_PART_HEADER && !c.book.aborted then c.(phase := Error)
    else
      var kept := if |c.header| + 1 >= MAX_PART_HEADER then c.header[|c.header| - 3..] else c.header;
      var header := kept + [b];
      if !EndsWith(header, HEADER_END) then c.(header := header)
      else c.(header := header, book := BeginPart(cfg, c.book, header),
              phase := if Unreadable(cfg, c.book, header) then Error else PartData)
  }

  function DataStep(cfg: Config, c: Core, b: byte): Core {
    var t := c.hold + [b];
    var h := Settle(cfg.Delim(), t);
    var passed := c.(book := Pass(cfg, c.book, Sure(cfg.Delim(), t)));
    if |h| == |cfg.Delim()| then passed.(hold := [], inData := true, phase := DelimCheck)
    else passed.(hold := h)
  }

  /** The two octets behind a boundary decide what it was. */
  function Resolve(cfg: Config, c: Core, t: Bytes): Core
    requires |t| == 2
  {
    if t == DASHES || t == CRLF then
      c.(hold := [], phase := if t == DASHES then Epilogue else AfterBoundary,
         book := if c.inData then EndPart(cfg, c.book, true) else c.book)
    else if c.inData then
      c.(hold := Settle(cfg.Delim(), t), phase := PartData,
         book := Pass(cfg, Pass(cfg, c.book, cfg.Delim()), Sure(cfg.Delim(), t)))
    else c.(hold := [], phase := Preamble)
  }

  function CheckStep(cfg: Config, c: Core, b: byte): Core {
    var t := c.hold + [b];
    if |t| == 2 then Resolve(cfg, c, t) else c.(hold := t)
  }

  function Step(cfg: Config, c: Core, b: byte): Core {
    match c.phase
    case Preamble => if |c.hold| < |cfg.boundary| then PreambleStep(cfg, c, b) else c
    case AfterBoundary => HeaderStep(cfg, OpenHeader(c), b)
    case PartHeader => HeaderStep(cfg, c, b)
    case PartData => DataStep(cfg, c, b)
    case DelimCheck => CheckStep(cfg, c, b)
    case Epilogue => c
    case Error => c
  }

  // ----- stretches of octets -----

  function Stepper(cfg: Config): (Core, byte) -> Core {
    (c: Core, b: byte) => Step(cfg, c, b)
  }

  /** The octets data[lo..hi] one after the other. */
  function Run(cfg: Config, c: Core, data: Bytes, lo: nat, hi: nat): Core
    requires lo <= hi <= |data|
  {
    Fold(Stepper(cfg), c, data, lo, hi)
  }

  function RunAll(cfg: Config, c: Core, data: Bytes): Core {
    FoldAll(Stepper(cfg), c, data)
  }

  lemma {:induction false} RunStuck(cfg: Config, c: Core, data: Bytes)
    requires c.phase.Error? || c.phase.Epilogue?
    ensures RunAll(cfg, c, data) == c
  {
    FoldStuck(Stepper(cfg), c, data, 0, |data|);
  }

  // ----- one call with a piece of the body -----

  datatype Outcome = More | Complete | Failed

  /** `pos` counts all octets of the body handed over so far. */
  datatype Fed = Fed(core: Core, pos: nat, outcome: Outcome)

  /** The result of `postStreamFeed` once the octets are through. */
  function Conclude(cfg: Config, c: Core, pos: nat, data: Bytes): Fed {
    if data != [] && c.phase.Error? then Fed(c, pos, Failed)
    else if pos < cfg.contentLength then Fed(c, pos, More)
    else if c.phase.Epilogue? then Fed(c, pos, Complete)
    else Fed(c.(book := Finish(cfg, c.book, false)), pos, Failed)
  }

  function Feed(cfg: Config, c: Core, pos: nat, data: Bytes): Fed {
    Conclude(cfg, RunAll(cfg, c, data), pos + |data|, data)
  }

  const EmptyBook: Book := Book(false, false, [], false, false, 0, [], [])

  const Initial: Core := Core(Preamble, [], false, [], EmptyBook)
}
