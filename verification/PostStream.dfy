/** The streaming multipart/form-data receiver of a connection: pieces of the body
    in, calls to the upload handler out, with a hold-back buffer, a part header
    buffer and the part list updated in place. */
module PostStream {
  import opened Bytes
  import opened Sequences
  import opened NeedleScan
  import opened MultipartMachine
  import opened MultipartProtocol
  import opened MultipartSplit
  import opened MultipartCuts
  import opened MultipartLens
  import opened MultipartHearing
  import opened MultipartRefinement
  import opened MultipartHeader
  import opened FieldBuffers

  lemma {:induction false} MoveOne(before: Bytes, out: Bytes, g: Bytes)
    requires g != []
    ensures out + g == (out + [g[0]]) + g[1..]
    ensures (before + out) + [g[0]] == before + (out + [g[0]])
  {
  }

  class Receiver {
    const cfg: Config
    const hold: array<byte>
    const header: array<byte>

    var phase: Phase
    var holdLen: nat
    var inData: bool
    var headerLen: nat
    var isFile: bool
    var current: bool          // post_stream_current_part: the head of the list, or null
    var parts: seq<Entry>      // post_stream_parts, newest first
    var partsCount: nat
    var fieldsTotal: nat
    var started: bool
    var aborted: bool
    var received: nat
    var bufferPos: nat
    var events: Trace          // what the handler has been called with
    ghost var payload: Bytes   // what was passed on for the open part
    ghost var log: seq<Op>     // what has happened to the book

    ghost function Ledger(): Book
      reads `isFile, `current, `parts, `started, `aborted, `received, `payload, `events
    {
      Book(isFile, current, View(parts), started, aborted, received, payload, events)
    }

    ghost function State(): Core
      reads this, hold, header
      requires holdLen <= hold.Length && headerLen <= header.Length
    {
      Core(phase, hold[..holdLen], inData, header[..headerLen], Ledger())
    }

    ghost predicate Room()
      reads `holdLen, `headerLen
    {
      && cfg.Valid() && hold != header
      && hold.Length == |cfg.boundary| + 8 && header.Length == MAX_PART_HEADER
      && holdLen <= hold.Length && headerLen <= header.Length
    }

    /** The list, its count and the field buffers agree, and there are never more than 64
        entries; the field being received is complete up to here unless it was cut off. */
    ghost predicate Fields()
      reads `parts, `partsCount, `fieldsTotal, `current, `isFile, `payload
    {
      && partsCount == |parts| <= 64 && AllSound(parts)
      && fieldsTotal == FieldSum(parts) <= MAX_FIELDS_TOTAL
      && (current ==> parts != [] && parts[0].isFile == isFile)
      && (current && !isFile && !parts[0].truncated ==> parts[0].data == payload)
    }

    ghost predicate Recorded()
      reads `parts, `partsCount, `fieldsTotal, `current, `isFile, `payload, `started, `aborted, `received, `events, `log
    {
      Fields() && Ledger() == Replay(cfg, log)
    }

    ghost predicate Books()
      reads `holdLen, `headerLen
      reads `parts, `partsCount, `fieldsTotal, `current, `isFile, `payload, `started, `aborted, `received, `events, `log
    {
      Room() && Recorded()
    }

    /** Where the receiver stands: what is held fits the phase. No header is read for a part
        behind the 64th unless the upload is aborted, and an upload that is aborted has no
        error in its body any more. */
    ghost predicate Placing()
      reads this, hold
      requires Room()
    {
      var h := hold[..holdLen];
      match phase
      case Preamble => h <= cfg.boundary && holdLen < |cfg.boundary| && Closed(Ledger())
      case PartData => h <= cfg.Delim() && holdLen < |cfg.Delim()|
      case DelimCheck => holdLen < 2 && (!inData ==> Closed(Ledger()))
      case PartHeader =>
        2 <= headerLen < MAX_PART_HEADER && holdLen == 0 && Closed(Ledger()) && (aborted || partsCount < 64)
      case Error => Closed(Ledger()) && !aborted
      case _ => Closed(Ledger())
    }

    ghost predicate Valid()
      reads this, hold
    {
      Books() && Placing()
    }

    /** The run can be measured: always for a handler that is blind to the cuts, and for
        every other as long as the upload is not aborted. */
    ghost predicate Measured()
      reads `aborted
    {
      Blind(cfg) || !aborted
    }

    /** What was passed on is `out`, as far as the handler has heard it. */
    ghost predicate Heeds(book: Book, out: Bytes)
      reads `isFile, `current, `parts, `started, `aborted, `received, `payload, `events
    {
      Follows(cfg, Ledger(), book, out)
    }

    constructor (cfg: Config)
      requires cfg.Valid()
      ensures this.cfg == cfg && Valid() && State() == Initial && bufferPos == 0
      ensures fresh(hold) && fresh(header)
    {
      this.cfg := cfg;
      hold := new byte[|cfg.boundary| + 8](_ => 0);
      header := new byte[MAX_PART_HEADER](_ => 0);
      phase, holdLen, inData, headerLen := Preamble, 0, false, 0;
      isFile, current, parts, partsCount, fieldsTotal := false, false, [], 0, 0;
      started, aborted, received, bufferPos := false, false, 0, 0;
      events, payload, log := [], [], [];
    }

    /** Keep the log: the book was `book` before the operation. */
    ghost method Note(op: Op, book: Book)
      requires book == Replay(cfg, log) && Ledger() == Apply(cfg, book, op)
      modifies this`log
      ensures Ledger() == Replay(cfg, log)
    {
      ReplayMore(cfg, log, op);
      log := log + [op];
    }

    /** The open field takes a piece into its buffer. */
    method BufferField(data: Bytes)
      requires Room() && Fields() && current && !isFile && data != []
      modifies this`parts, this`fieldsTotal, this`payload
      ensures Fields() && payload == old(payload) + data && View(parts) == old(View(parts))
    {
      var e, total := Append(parts[0], data, fieldsTotal);
      HeadReplaced(parts, e);
      fieldsTotal := total;
      parts := [e] + parts[1..];
      payload := payload + data;
    }

    /** The handler gets a piece of the open file, unless the request is discarded. */
    method StreamFile(data: Bytes)
      requires isFile && !aborted && data != []
      modifies this`received, this`events, this`aborted, this`payload
      ensures Ledger() == Emit(cfg, old(Ledger()), data)
    {
      payload := payload + data;
      received := received + |data|;
      if !cfg.discard {
        events := events + [Chunk(data)];
        aborted := cfg.aborts(events);
      }
    }

    /** Pass payload of the open part on: a file to the handler, a field to its buffer. */
    method EmitPartData(data: Bytes)
      requires Books()
      modifies this`received, this`events, this`aborted, this`parts, this`fieldsTotal, this`payload, this`log
      ensures Books() && Ledger() == Emit(cfg, old(Ledger()), data)
      ensures old(aborted) ==> aborted && events == old(events)
    {
      ghost var book := Ledger();
      if data != [] && !aborted {
        if isFile {
          StreamFile(data);
        } else if current {
          BufferField(data);
        } else {
          payload := payload + data;
        }
      }
      assert Ledger() == Emit(cfg, book, data);
      Note(Take(data), book);
    }

    /** Remove the first held octet, moving the others up. */
    method DropFirst()
      requires Room() && holdLen > 0
      modifies hold, this`holdLen
      ensures holdLen == old(holdLen) - 1 && hold[..holdLen] == old(hold[..holdLen])[1..]
    {
      holdLen := holdLen - 1;
      forall i | 0 <= i < holdLen {
        hold[i] := hold[i + 1];
      }
    }

    /** Pass more payload on; `book` and `out` say what went before. */
    method EmitMore(data: Bytes, ghost book: Book, ghost out: Bytes)
      requires Books()
      requires Heeds(book, out)
      modifies this`received, this`events, this`aborted, this`parts, this`fieldsTotal, this`payload, this`log
      ensures Books()
      ensures old(aborted) ==> aborted && events == old(events)
      ensures Heeds(book, out + data)
    {
      ghost var before := Ledger();
      assert Reached(cfg, Ledger());
      EmitPartData(data);
      EmitFollows(cfg, before, book, out, data);
    }

    /** Give out the first held octet. */
    method GiveFirst(ghost book: Book, ghost out: Bytes)
      requires Books() && holdLen > 0
      requires Heeds(book, out)
      modifies hold, this`holdLen, this`received, this`events, this`aborted, this`parts, this`fieldsTotal, this`payload, this`log
      ensures Books() && holdLen == old(holdLen) - 1
      ensures old(aborted) ==> aborted && events == old(events)
      ensures hold[..holdLen] == old(hold[..holdLen])[1..]
      ensures Heeds(book, out + [old(hold[0])])
    {
      EmitMore([hold[0]], book, out);
      DropFirst();
    }

    /** Give out held octets until the rest can again become the needle. */
    method RebaseHold(needle: Bytes, ghost book: Book, ghost before: Bytes) returns (ghost out: Bytes)
      requires Books() && holdLen <= |needle|
      requires Heeds(book, before)
      modifies hold, this`holdLen, this`received, this`events, this`aborted, this`parts, this`fieldsTotal, this`payload, this`log
      ensures Books() && holdLen <= |needle|
      ensures old(aborted) ==> aborted && events == old(events)
      ensures hold[..holdLen] == Settle(needle, old(hold[..holdLen])) && out == Sure(needle, old(hold[..holdLen]))
      ensures Heeds(book, before + out)
    {
      ghost var h := hold[..holdLen];
      out := [];
      assert before + out == before && out + h == h;
      while holdLen > 0 && hold[..holdLen] != needle[..holdLen]
        invariant Books() && holdLen <= |needle|
        invariant h == out + hold[..holdLen]
        invariant Settle(needle, hold[..holdLen]) == Settle(needle, h)
        invariant old(aborted) ==> aborted && events == old(events)
        invariant Heeds(book, before + out)
        decreases holdLen
      {
        ghost var g := hold[..holdLen];
        SettleDrop(needle, g);
        GiveFirst(book, before + out);
        MoveOne(before, out, g);
        out := out + [g[0]];
      }
      if holdLen > 0 {
        SettleDrop(needle, hold[..holdLen]);
      }
    }

    /** The next octet of `data` that can start the needle, or the end. */
    static method NextStart(c: byte, data: Bytes, pos: nat) returns (k: nat)
      requires pos <= |data|
      ensures pos <= k <= |data| && (k < |data| ==> data[k] == c)
      ensures forall i :: pos <= i < k ==> data[i] != c
    {
      k := pos;
      while k < |data| && data[k] != c
        invariant pos <= k <= |data|
        invariant forall i :: pos <= i < k ==> data[i] != c
      {
        k := k + 1;
      }
    }

    method PushHold(b: byte)
      requires Room() && holdLen < hold.Length
      modifies hold, this`holdLen
      ensures Room() && holdLen == old(holdLen) + 1 && hold[..holdLen] == old(hold[..holdLen]) + [b]
    {
      hold[holdLen] := b;
      holdLen := holdLen + 1;
      assert hold[..holdLen - 1] == old(hold[..holdLen]);
    }

    /** Hold octets back as long as they match the needle. */
    method FillHold(needle: Bytes, data: Bytes, start: nat, ghost text: Bytes, ghost out: Bytes, ghost pos: nat, ghost from: nat)
        returns (p: nat)
      requires Room() && |needle| <= hold.Length && pos <= start <= |data| && holdLen < |needle|
      requires Filled(needle, hold[..holdLen], text, out, data, pos, start, from)
      modifies hold, this`holdLen
      ensures Room() && start <= p <= |data| && holdLen <= |needle|
      ensures Filled(needle, hold[..holdLen], text, out, data, pos, p, from)
      ensures p == start ==> holdLen == old(holdLen)
      ensures holdLen < |needle| && p < |data| ==> needle[holdLen] != data[p]
    {
      p := start;
      while holdLen < |needle| && p < |data| && data[p] == needle[holdLen]
        invariant Room() && start <= p <= |data| && holdLen <= |needle|
        invariant p == start ==> holdLen == old(holdLen)
        invariant Filled(needle, hold[..holdLen], text, out, data, pos, p, from)
        decreases |data| - p
      {
        FillMore(needle, hold[..holdLen], text, out, data, pos, p, from);
        PushHold(data[p]);
        p := p + 1;
      }
    }

    /** With nothing held, jump to the next octet that can start the needle. */
    method SkipPlain(needle: Bytes, data: Bytes, start: nat, ghost text: Bytes, ghost out: Bytes, ghost pos: nat, ghost from: nat, ghost book: Book)
        returns (p: nat, ghost out': Bytes)
      requires Books() && needle != [] && pos <= start <= |data|
      requires Filled(needle, [], text, out, data, pos, start, from)
      requires Heeds(book, out)
      modifies this`received, this`events, this`aborted, this`parts, this`fieldsTotal, this`payload, this`log
      ensures Books() && start <= p <= |data| && (p < |data| ==> data[p] == needle[0])
      ensures old(aborted) ==> aborted && events == old(events)
      ensures Filled(needle, [], text, out', data, pos, p, from)
      ensures Heeds(book, out')
    {
      p := NextStart(needle[0], data, start);
      FillSkip(needle, text, out, data, pos, start, p, from);
      EmitMore(data[start..p], book, out);
      out' := out + data[start..p];
    }

    /** The held octets do not go on as the needle does: give out the first and
        what then cannot start it either. */
    method BackUp(needle: Bytes, data: Bytes, ghost p: nat, ghost text: Bytes, ghost out: Bytes, ghost pos: nat, ghost from: nat, ghost book: Book)
        returns (ghost out': Bytes)
      requires Books() && pos <= p < |data| && 0 < holdLen < |needle| && data[p] != needle[holdLen]
      requires Filled(needle, hold[..holdLen], text, out, data, pos, p, from)
      requires Heeds(book, out)
      modifies hold, this`holdLen, this`received, this`events, this`aborted, this`parts, this`fieldsTotal, this`payload, this`log
      ensures Books() && holdLen < old(holdLen)
      ensures old(aborted) ==> aborted && events == old(events)
      ensures Filled(needle, hold[..holdLen], text, out', data, pos, p, from)
      ensures Heeds(book, out')
    {
      ghost var h := hold[..holdLen];
      FillBack(needle, h, text, out, data, pos, p, from);
      GiveFirst(book, out);
      ghost var more := RebaseHold(needle, book, out + [h[0]]);
      out' := out + ([h[0]] + more);
      Concat(out, [h[0]], more);
    }

    /** Hold what matches, back up on a mismatch. */
    method HoldRound(needle: Bytes, data: Bytes, start: nat, ghost text: Bytes, ghost out: Bytes, ghost pos: nat, ghost from: nat, ghost book: Book)
        returns (p: nat, ghost out': Bytes)
      requires Books() && |needle| <= hold.Length && pos <= start < |data| && holdLen < |needle|
      requires holdLen == 0 ==> data[start] == needle[0]
      requires Filled(needle, hold[..holdLen], text, out, data, pos, start, from)
      requires Heeds(book, out)
      modifies hold, this`holdLen, this`received, this`events, this`aborted, this`parts, this`fieldsTotal, this`payload, this`log
      ensures Books() && start <= p <= |data| && holdLen <= |needle|
      ensures old(aborted) ==> aborted && events == old(events)
      ensures start < p || holdLen < old(holdLen)
      ensures Filled(needle, hold[..holdLen], text, out', data, pos, p, from)
      ensures Heeds(book, out')
    {
      out' := out;
      p := FillHold(needle, data, start, text, out, pos, from);
      if holdLen < |needle| && p < |data| {
        out' := BackUp(needle, data, p, text, out, pos, from, book);
      }
    }

    /** One round of the search: jump, hold what matches, back up on a mismatch. */
    method ScanRound(needle: Bytes, data: Bytes, start: nat, ghost text: Bytes, ghost out: Bytes, ghost pos: nat, ghost from: nat, ghost book: Book)
        returns (p: nat, ghost out': Bytes)
      requires Books() && 0 < |needle| <= hold.Length && pos <= start < |data| && holdLen < |needle|
      requires Filled(needle, hold[..holdLen], text, out, data, pos, start, from)
      requires Heeds(book, out)
      modifies hold, this`holdLen, this`received, this`events, this`aborted, this`parts, this`fieldsTotal, this`payload, this`log
      ensures Books() && start <= p <= |data| && holdLen <= |needle|
      ensures old(aborted) ==> aborted && events == old(events)
      ensures start < p || holdLen < old(holdLen)
      ensures Filled(needle, hold[..holdLen], text, out', data, pos, p, from)
      ensures Heeds(book, out')
    {
      p, out' := start, out;
      if holdLen == 0 {
        assert hold[..0] == [];
        p, out' := SkipPlain(needle, data, p, text, out, pos, from, book);
        if p == |data| {
          return;
        }
      }
      p, out' := HoldRound(needle, data, p, text, out', pos, from, book);
    }

    /** Search the payload for the needle, passing on what cannot belong to it. */
    method ScanForNeedle(needle: Bytes, data: Bytes, pos: nat) returns (found: bool, p: nat, ghost out: Bytes)
      requires Books() && 0 < |needle| <= hold.Length && pos <= |data|
      requires hold[..holdLen] <= needle && holdLen < |needle|
      modifies hold, this`holdLen, this`received, this`events, this`aborted, this`parts, this`fieldsTotal, this`payload, this`log
      ensures Books() && pos <= p <= |data|
      ensures old(aborted) ==> aborted && events == old(events)
      ensures Scanned(needle, old(hold[..holdLen]), hold[..holdLen], out, data, pos, p, found)
      ensures Heeds(old(Normal(Ledger())), out)
    {
      p, out := pos, [];
      ghost var book := Normal(Ledger());
      ghost var before := hold[..holdLen];
      FillStart(needle, before, data, pos);
      while p < |data| && holdLen < |needle|
        invariant Books() && pos <= p <= |data| && holdLen <= |needle|
        invariant Filled(needle, hold[..holdLen], before, out, data, pos, p, |before|)
        invariant old(aborted) ==> aborted && events == old(events)
        invariant Heeds(book, out)
        decreases |data| - p, holdLen
      {
        p, out := ScanRound(needle, data, p, before, out, pos, |before|, book);
      }
      FillEnd(needle, before, hold[..holdLen], out, data, pos, p);
      found := holdLen == |needle|;
      if found {
        holdLen := 0;
        assert hold[..holdLen] == [];
      }
    }

    /** Search for the first boundary; what precedes it is dropped, and so is all
        that is held when an octet does not match. */
    method SkipToBoundary(data: Bytes, pos: nat, ghost c: Core, ghost m: Config) returns (found: bool, p: nat)
      requires Room() && pos <= |data| && hold[..holdLen] <= cfg.boundary && holdLen < |cfg.boundary| && m.boundary == cfg.boundary
      requires c.phase.Preamble? && c.hold == hold[..holdLen]
      modifies hold, this`holdLen
      ensures Room() && pos <= p <= |data| && (pos < |data| ==> pos < p)
      ensures found ==> holdLen == 0 && Run(m, c, data, pos, p) == c.(hold := [], inData := false, phase := DelimCheck)
      ensures !found ==> && p == |data| && holdLen < |cfg.boundary| && hold[..holdLen] <= cfg.boundary
                         && Run(m, c, data, pos, p) == c.(hold := hold[..holdLen])
    {
      p := pos;
      ghost var g := hold[..holdLen];
      while p < |data|
        invariant Room() && pos <= p <= |data| && holdLen < |cfg.boundary| && |g| < |cfg.boundary|
        invariant hold[..holdLen] <= cfg.boundary
        invariant Run(m, c, data, pos, p) == c.(hold := g)
        invariant g == hold[..holdLen] || (holdLen == 0 && p < |data| && cfg.boundary[|g|] != data[p])
        decreases |data| - p, holdLen
      {
        if holdLen == 0 {
          var k := NextStart(cfg.boundary[0], data, p);
          if p < k {
            PreambleSkip(m, c, data, pos, p, k, g);
            g := [];
          }
          p := k;
          if p == |data| {
            break;
          }
        }
        p, g := FillBoundary(data, p, c, m, pos, g);
        if holdLen == |cfg.boundary| {
          holdLen := 0;
          return true, p;
        }
        if p < |data| {
          DropFirst();
          holdLen := 0;
        }
      }
      found := false;
    }

    /** One octet more of the needle is held. */
    method HoldOctet(b: byte, ghost needle: Bytes)
      requires Room() && holdLen < hold.Length && holdLen < |needle| && hold[..holdLen] <= needle && b == needle[holdLen]
      modifies hold, this`holdLen
      ensures Room() && holdLen == old(holdLen) + 1 && hold[..holdLen] <= needle
      ensures hold[..holdLen] == old(hold[..holdLen]) + [b]
    {
      PushHold(b);
    }

    method FillBoundary(data: Bytes, start: nat, ghost c: Core, ghost m: Config, ghost pos: nat, ghost g: Bytes) returns (p: nat, ghost g': Bytes)
      requires Room() && pos <= start < |data| && c.phase.Preamble? && m.boundary == cfg.boundary
      requires hold[..holdLen] <= cfg.boundary && holdLen < |cfg.boundary| && |g| < |cfg.boundary|
      requires Run(m, c, data, pos, start) == c.(hold := g)
      requires g == hold[..holdLen] || (holdLen == 0 && cfg.boundary[|g|] != data[start])
      requires holdLen == 0 ==> data[start] == cfg.boundary[0]
      modifies hold, this`holdLen
      ensures Room() && start <= p <= |data| && 0 < holdLen <= |cfg.boundary| && hold[..holdLen] <= cfg.boundary
      ensures p == start ==> holdLen == old(holdLen)
      ensures holdLen == |cfg.boundary| ==> start < p && Run(m, c, data, pos, p) == c.(hold := [], inData := false, phase := DelimCheck)
      ensures holdLen < |cfg.boundary| ==> g' == hold[..holdLen] && Run(m, c, data, pos, p) == c.(hold := g')
      ensures holdLen < |cfg.boundary| && p < |data| ==> cfg.boundary[holdLen] != data[p]
    {
      p, g' := start, g;
      while holdLen < |cfg.boundary| && p < |data| && data[p] == cfg.boundary[holdLen]
        invariant Room() && start <= p <= |data| && holdLen <= |cfg.boundary| && hold[..holdLen] <= cfg.boundary
        invariant p == start ==> holdLen == old(holdLen) && g' == g
        invariant p > start ==> holdLen > 0
        invariant holdLen == |cfg.boundary| ==> start < p && Run(m, c, data, pos, p) == c.(hold := [], inData := false, phase := DelimCheck)
        invariant holdLen < |cfg.boundary| ==> |g'| < |cfg.boundary| && Run(m, c, data, pos, p) == c.(hold := g')
        invariant holdLen < |cfg.boundary| ==> g' == hold[..holdLen] || (p == start && holdLen == 0 && cfg.boundary[|g'|] != data[start])
        decreases |data| - p
      {
        PreambleMore(m, c, data, pos, p, g');
        HoldOctet(data[p], cfg.boundary);
        p := p + 1;
        g' := hold[..holdLen];
      }
    }

    /** A new entry at the head of the list. */
    method EnterPart(name: Bytes)
      requires Room() && Fields() && !current && payload == [] && partsCount < 64
      modifies this`current, this`parts, this`partsCount
      ensures Fields() && Ledger() == Enter(old(Ledger()), name)
    {
      var e := Entry(isFile, Cut(name), 0, false, false, [], 0, 0);
      HeadAdded(parts, e);
      parts := [e] + parts;
      current := true;
      partsCount := partsCount + 1;
    }

    method CallStart(file: Bytes)
      modifies this`events, this`started, this`aborted
      ensures Ledger() == Announce(cfg, old(Ledger()), file)
    {
      events := events + [Start(file)];
      started := true;
      aborted := cfg.aborts(events);
    }

    method StartPart(field: Option<Bytes>, file: Option<Bytes>)
      requires Room() && Fields() && !current && partsCount < 64
      modifies this`current, this`isFile, this`received, this`payload, this`parts, this`partsCount, this`events, this`started, this`aborted
      ensures Fields() && Ledger() == OpenPart(cfg, old(Ledger()), field, file)
    {
      isFile := file.Some?;
      received := 0;
      payload := [];
      if cfg.discard {
        return;
      }
      if file.Some? {
        EnterPart(file.value);
        CallStart(file.value);
      } else {
        EnterPart(if field.Some? then field.value else []);
      }
    }

    /** Read the collected header and open the part it announces. */
    method BeginPart() returns (ok: bool)
      requires Books() && Closed(Ledger()) && (aborted || partsCount < 64)
      modifies this`current, this`isFile, this`received, this`payload, this`parts, this`partsCount, this`events, this`started, this`aborted, this`log
      ensures Books() && Ledger() == MultipartMachine.BeginPart(cfg, old(Ledger()), header[..headerLen])
      ensures ok <==> old(aborted) || cfg.analyse(header[..headerLen]).Names?
      ensures !ok ==> !aborted && Closed(Ledger())
    {
      ghost var book := Ledger();
      var head := header[..headerLen];
      var names := cfg.analyse(head);
      current := false;
      ok := aborted || names.Names?;
      if aborted {
        isFile := false;
      } else if ok {
        StartPart(names.field, names.file);
      }
      assert Ledger() == MultipartMachine.BeginPart(cfg, book, head);
      Note(Begin(head), book);
    }

    /** The result of the open part goes into its entry. */
    method NoteResult(success: bool)
      requires Room() && Fields()
      modifies this`parts, this`current, this`isFile
      ensures Fields() && Ledger() == NoteEnd(old(Ledger()), success)
    {
      if current {
        HeadView(parts);
        if parts[0].isFile {
          var failed := parts[0].failed || !success || aborted;
          ResultNoted(parts, received, failed);
          parts := [parts[0].(length := received, failed := failed)] + parts[1..];
        }
      }
      current := false;
      isFile := false;
    }

    method CallEnd(success: bool)
      modifies this`events, this`started, this`aborted
      ensures Ledger() == TellEnd(cfg, old(Ledger()), success)
    {
      if isFile && started {
        events := events + [End(success && !aborted)];
        aborted := aborted || cfg.aborts(events);
        started := false;
      }
    }

    /** Close the open part: tell the handler, then note the result in its entry. */
    method EndPart(success: bool)
      requires Books()
      modifies this`current, this`isFile, this`parts, this`events, this`started, this`aborted, this`log
      ensures Books() && Ledger() == MultipartMachine.EndPart(cfg, old(Ledger()), success)
      ensures Closed(Ledger())
    {
      EndCloses(cfg, log, success);
      ghost var book := Ledger();
      CallEnd(success);
      NoteResult(success);
      Note(Close(success), book);
    }

    /** After an abort the end of a part is no more than that it failed. */
    lemma FailedEnd(success: bool)
      requires Recorded()
      ensures aborted ==> Calls(MultipartMachine.EndPart(cfg, Ledger(), success).events) == Calls(events)
    {
      ReplayInv(cfg, log);
      if aborted {
        HeardEnds(cfg, Ledger(), success);
      }
    }

    /** Make room at the end of the header buffer of a dropped part: the last three
        octets stay, an empty line may reach over the cut. */
    method ShiftHeader()
      requires Room() && headerLen >= 3
      modifies header, this`headerLen
      ensures Room() && headerLen == 3 && header[..3] == old(header[headerLen - 3..headerLen])
    {
      var a, b, c := header[headerLen - 3], header[headerLen - 2], header[headerLen - 1];
      header[0], header[1], header[2] := a, b, c;
      headerLen := 3;
    }

    /** Make room for an octet in the header buffer, if there is none. */
    method MakeRoom()
      requires Room() && 2 <= headerLen < MAX_PART_HEADER
      modifies header, this`headerLen
      ensures Room() && 2 <= headerLen && headerLen + 1 < MAX_PART_HEADER
      ensures header[..headerLen] == Slid(old(header[..headerLen]))
    {
      ghost var h := header[..headerLen];
      if headerLen + 1 >= MAX_PART_HEADER {
        ShiftHeader();
        assert header[..headerLen] == h[|h| - 3..];
      }
    }

    /** Append an octet to the header buffer; is the header complete with it? */
    method PushHeader(b: byte) returns (progress: Progress)
      requires Room() && headerLen + 1 < MAX_PART_HEADER
      modifies header, this`headerLen
      ensures Room() && headerLen == old(headerLen) + 1 && header[..headerLen] == old(header[..headerLen]) + [b]
      ensures progress == if EndsWith(header[..headerLen], HEADER_END) then Done else Going
    {
      header[headerLen] := b;
      headerLen := headerLen + 1;
      assert header[..headerLen - 1] == old(header[..headerLen]);
      progress := if EndsWith(header[..headerLen], HEADER_END) then Done else Going;
    }

    /** One octet for the header buffer. */
    method CollectOctet(data: Bytes, p: nat, ghost pos: nat, ghost c: Core, ghost m: Config) returns (progress: Progress, p': nat)
      requires Room() && 2 <= headerLen < MAX_PART_HEADER && pos <= p < |data|
      requires c.phase.PartHeader? && c.book.aborted == aborted
      requires Collected(m, c, data, pos, p, header[..headerLen], Going)
      modifies header, this`headerLen
      ensures Room() && p <= p' <= |data| && 2 <= headerLen < MAX_PART_HEADER
      ensures Collected(m, c, data, pos, p', header[..headerLen], progress)
      ensures if progress.Refused? then !aborted else p < p'
    {
      ghost var h := header[..headerLen];
      if headerLen + 1 >= MAX_PART_HEADER && !aborted {
        CollectRefused(m, c, data, pos, p, h);
        return Refused, p;
      }
      MakeRoom();
      progress := PushHeader(data[p]);
      CollectMore(m, c, data, pos, p, h, header[..headerLen]);
      p' := p + 1;
    }

    /** Collect header octets up to the empty line. */
    method CollectPartHeader(data: Bytes, pos: nat, ghost c: Core, ghost m: Config) returns (progress: Progress, p: nat)
      requires Room() && 2 <= headerLen < MAX_PART_HEADER && pos <= |data|
      requires c.phase.PartHeader? && c.header == header[..headerLen] && c.book.aborted == aborted
      modifies header, this`headerLen
      ensures Room() && pos <= p <= |data| && 2 <= headerLen < MAX_PART_HEADER
      ensures Collected(m, c, data, pos, p, header[..headerLen], progress)
      ensures progress.Going? ==> p == |data|
      ensures progress.Refused? ==> !aborted
    {
      p, progress := pos, Going;
      while p < |data| && progress.Going?
        invariant Room() && pos <= p <= |data| && 2 <= headerLen < MAX_PART_HEADER
        invariant Collected(m, c, data, pos, p, header[..headerLen], progress)
        invariant progress.Refused? ==> !aborted
        decreases |data| - p, progress.Going?
      {
        progress, p := CollectOctet(data, p, pos, c, m);
      }
    }

    // ----- one method per phase -----

    /** The state without the cuts in the trace. */
    ghost function Seen(): Core
      reads this, hold, header
      requires holdLen <= hold.Length && headerLen <= header.Length
    {
      NormalCore(State())
    }

    method FoundBoundary(found: bool)
      requires Books() && phase.Preamble? && Closed(Ledger())
      requires if found then holdLen == 0 else hold[..holdLen] <= cfg.boundary && holdLen < |cfg.boundary|
      modifies `inData, `phase
      ensures Valid() && (holdLen == 0 ==> hold[..holdLen] == [])
      ensures phase == (if found then DelimCheck else Preamble) && inData == (!found && old(inData))
    {
      if found {
        inData := false;
        phase := DelimCheck;
      }
    }

    method TakePreamble(data: Bytes, pos: nat) returns (p: nat)
      requires Valid() && phase.Preamble? && pos < |data|
      modifies hold, `holdLen, `inData, `phase
      ensures Valid() && pos < p <= |data|
      ensures Tracked(cfg, old(Seen()), pos, Seen(), events, p, data)
    {
      ghost var c := Seen();
      var found;
      ghost var m := Lens(cfg);
      found, p := SkipToBoundary(data, pos, c, m);
      FoundBoundary(found);
      assert Seen() == Run(m, c, data, pos, p);
      RunTracked(cfg, c, events, data, pos, p);
    }

    /** No part beyond the limit. */
    method LimitParts()
      requires Recorded()
      modifies `aborted, `log
      ensures Recorded() && Ledger() == Limit(old(Ledger()))
    {
      ghost var book := Ledger();
      if !aborted && partsCount >= MAX_PARTS {
        aborted := true;
      }
      Note(Check, book);
    }

    method ClearHeader()
      requires Room()
      modifies header, `headerLen, `holdLen
      ensures Room() && header[..headerLen] == CRLF && holdLen == 0
    {
      header[0], header[1] := CR, LF;
      headerLen := 2;
      holdLen := 0;
    }

    /** Past a boundary: the limit on parts, and an empty header buffer. */
    method TakeBoundary(data: Bytes, pos: nat)
      requires Valid() && phase.AfterBoundary? && pos < |data|
      modifies header, `headerLen, `holdLen, `phase, `aborted, `log
      ensures Valid() && phase.PartHeader?
      ensures old(aborted) ==> aborted && Calls(events) == old(Calls(events))
      ensures Tracked(cfg, old(Seen()), pos, Seen(), events, pos, data)
    {
      ghost var c := Seen();
      LimitParts();
      ClearHeader();
      phase := PartHeader;
      assert Seen() == OpenHeader(c);
      BoundaryTracked(cfg, c, events, data, pos);
    }

    /** The header is complete: open its part, or give up. */
    method OpenCollected()
      requires Books() && Closed(Ledger()) && holdLen == 0 && (aborted || partsCount < 64)
      modifies `phase, `current, `isFile, `received, `payload, `parts, `partsCount, `events, `started, `aborted, `log
      ensures Valid()
      ensures Ledger() == MultipartMachine.BeginPart(cfg, old(Ledger()), header[..headerLen])
      ensures phase == if Unreadable(cfg, old(Ledger()), header[..headerLen]) then Error else PartData
    {
      var ok := BeginPart();
      phase := if ok then PartData else Error;
      assert hold[..holdLen] == [];
    }

    method Proceed(progress: Progress)
      requires Valid() && phase.PartHeader? && (progress.Refused? ==> !aborted)
      modifies `phase, `current, `isFile, `received, `payload, `parts, `partsCount, `events, `started, `aborted, `log
      ensures Valid()
      ensures progress.Done? ==>
                && Ledger() == MultipartMachine.BeginPart(cfg, old(Ledger()), header[..headerLen])
                && phase == if Unreadable(cfg, old(Ledger()), header[..headerLen]) then Error else PartData
      ensures !progress.Done? ==>
                Ledger() == old(Ledger()) && phase == if progress.Refused? then Error else PartHeader
    {
      match progress
      case Done => OpenCollected();
      case Refused => phase := Error;
      case Going =>
    }

    /** Header octets up to the empty line, and what they lead to. */
    method ReadHeader(data: Bytes, pos: nat, ghost c: Core) returns (progress: Progress, p: nat)
      requires Valid() && phase.PartHeader? && pos < |data| && c == Seen()
      modifies header, `headerLen, `phase, `current, `isFile, `received, `payload, `parts, `partsCount, `events, `started, `aborted, `log
      ensures Valid() && pos <= p <= |data| && (phase.Error? || pos < p)
      ensures Collected(Lens(cfg), c, data, pos, p, header[..headerLen], progress)
      ensures progress.Going? ==> p == |data|
      ensures progress.Done? ==>
                && Ledger() == MultipartMachine.BeginPart(cfg, old(Ledger()), header[..headerLen])
                && phase == if Unreadable(cfg, old(Ledger()), header[..headerLen]) then Error else PartData
      ensures !progress.Done? ==>
                Ledger() == old(Ledger()) && phase == if progress.Refused? then Error else PartHeader
    {
      progress, p := CollectPartHeader(data, pos, c, Lens(cfg));
      Proceed(progress);
    }

    method TakeHeader(data: Bytes, pos: nat) returns (p: nat)
      requires Valid() && phase.PartHeader? && pos < |data|
      modifies header, `headerLen, `phase, `current, `isFile, `received, `payload, `parts, `partsCount, `events, `started, `aborted, `log
      ensures Valid() && pos <= p <= |data| && (phase.Error? || pos < p)
      ensures old(aborted) ==> aborted && Calls(events) == old(Calls(events))
      ensures Tracked(cfg, old(Seen()), pos, Seen(), events, p, data)
    {
      ghost var c, book := Seen(), Ledger();
      assert Reached(cfg, Ledger());
      var progress;
      progress, p := ReadHeader(data, pos, c);
      HeaderTracked(cfg, c, data, pos, p, header[..headerLen], progress, book, Ledger(), Seen());
    }

    /** A search of the payload has ended. */
    method Arrive(found: bool)
      requires Books() && phase.PartData? && hold[..holdLen] <= cfg.Delim() && holdLen < |cfg.Delim()|
      requires found ==> holdLen == 0
      modifies `phase, `inData
      ensures Valid() && phase == (if found then DelimCheck else PartData) && inData == (found || old(inData))
    {
      if found {
        inData := true;
        phase := DelimCheck;
      }
    }

    method TakeData(data: Bytes, pos: nat) returns (p: nat)
      requires Valid() && phase.PartData? && pos < |data|
      modifies hold, `phase, `inData, `holdLen, `received, `events, `aborted, `parts, `fieldsTotal, `payload, `log
      ensures Valid() && pos < p <= |data|
      ensures old(aborted) ==> aborted && Calls(events) == old(Calls(events))
      ensures Tracked(cfg, old(Seen()), pos, Seen(), events, p, data)
    {
      ghost var c := Seen();
      var found;
      ghost var out;
      found, p, out := ScanForNeedle(cfg.Delim(), data, pos);
      Arrive(found);
      DataTaken(cfg, c, hold[..holdLen], out, data, pos, p, found, Ledger());
    }

    /** Hold the octets behind a boundary until there are two. */
    method HoldTwo(data: Bytes, pos: nat) returns (p: nat)
      requires Room() && holdLen < 2 && pos < |data|
      modifies hold, `holdLen
      ensures Room() && pos < p <= |data| && (holdLen == 2 || p == |data|) && holdLen <= 2
      ensures hold[..holdLen] == old(hold[..holdLen]) + data[pos..p]
    {
      p := pos;
      ghost var h := hold[..holdLen];
      while holdLen < 2 && p < |data|
        invariant Room() && pos <= p <= |data| && holdLen <= 2 && holdLen == |h| + (p - pos)
        invariant hold[..holdLen] == h + data[pos..p]
        decreases |data| - p
      {
        ghost var g := hold[..holdLen];
        hold[holdLen] := data[p];
        holdLen := holdLen + 1;
        p := p + 1;
        assert hold[..holdLen] == g + [data[p - 1]];
        assert data[pos..p] == data[pos..p - 1] + [data[p - 1]];
      }
    }

    /** No part is open: on to the next header or the end of the body. */
    method MoveOn(last: bool)
      requires Books() && Closed(Ledger())
      modifies `phase, `holdLen
      ensures Valid() && holdLen == 0 && phase == if last then Epilogue else AfterBoundary
    {
      holdLen := 0;
      phase := if last then Epilogue else AfterBoundary;
    }

    /** A real delimiter: the part is complete. */
    method CloseAtDelimiter(last: bool)
      requires Books() && (!inData ==> Closed(Ledger()))
      modifies `phase, `holdLen, `current, `isFile, `parts, `events, `started, `aborted, `log
      ensures Valid() && holdLen == 0 && phase == if last then Epilogue else AfterBoundary
      ensures Ledger() == if inData then MultipartMachine.EndPart(cfg, old(Ledger()), true) else old(Ledger())
      ensures old(aborted) ==> Calls(events) == old(Calls(events))
    {
      if inData {
        FailedEnd(true);
        EndPart(true);
      }
      MoveOn(last);
    }

    /** No delimiter after all: the boundary is payload, the two octets may start another. */
    method ResumeData()
      requires Books() && holdLen == 2 && inData && !Real(hold[..2])
      modifies hold, `phase, `holdLen, `received, `events, `aborted, `parts, `fieldsTotal, `payload, `log
      ensures Valid() && phase.PartData? && hold[..holdLen] == Settle(cfg.Delim(), old(hold[..2]))
      ensures old(aborted) ==> aborted && events == old(events)
      ensures Settled(cfg, old(Ledger()), Ledger(), true, old(hold[..2]))
    {
      ghost var book := Normal(Ledger());
      assert Pass(cfg, book, []) == book;
      EmitMore(cfg.Delim(), book, []);
      assert [] + cfg.Delim() == cfg.Delim();
      ghost var out := RebaseHold(cfg.Delim(), book, cfg.Delim());
      ToData();
    }

    method ToData()
      requires Books() && hold[..holdLen] <= cfg.Delim() && holdLen < |cfg.Delim()|
      modifies `phase
      ensures Valid() && phase == PartData
    {
      phase := PartData;
    }

    /** What the two held octets make of the boundary. */
    method ResolveHeld() returns (ghost z: Bytes)
      requires Books() && holdLen == 2 && phase.DelimCheck? && (!inData ==> Closed(Ledger()))
      modifies hold, `phase, `holdLen, `current, `isFile, `received, `events, `started, `aborted, `parts, `fieldsTotal, `payload, `log
      ensures Valid() && z == old(hold[..2]) && Settled(cfg, old(Ledger()), Ledger(), inData, z)
      ensures old(aborted) ==> aborted && Calls(events) == old(Calls(events))
      ensures phase == if z == DASHES then Epilogue else if z == CRLF then AfterBoundary else if inData then PartData else Preamble
      ensures hold[..holdLen] == if inData && !Real(z) then Settle(cfg.Delim(), z) else []
    {
      z := hold[..2];
      if hold[..2] == DASHES {
        CloseAtDelimiter(true);
      } else if hold[..2] == CRLF {
        CloseAtDelimiter(false);
      } else if inData {
        ResumeData();
      } else {
        holdLen := 0;
        phase := Preamble;
      }
    }

    /** Both octets are held: what they decide. */
    method Decide(data: Bytes, ghost pos: nat, ghost p: nat, ghost c: Core)
      requires Books() && holdLen == 2 && phase.DelimCheck? && (!inData ==> Closed(Ledger())) && pos < p <= |data|
      requires c == Seen().(hold := c.hold) && |c.hold| < 2 && hold[..2] == c.hold + data[pos..p]
      modifies hold, `phase, `holdLen, `current, `isFile, `received, `events, `started, `aborted, `parts, `fieldsTotal, `payload, `log
      ensures Valid()
      ensures old(aborted) ==> aborted && Calls(events) == old(Calls(events))
      ensures Tracked(cfg, c, pos, Seen(), events, p, data)
    {
      ghost var book := Ledger();
      assert Reached(cfg, Ledger());
      ghost var z := ResolveHeld();
      CheckTracked(cfg, c, data, pos, p, z, book, Ledger(), Seen());
    }

    method TakeCheck(data: Bytes, pos: nat) returns (p: nat)
      requires Valid() && phase.DelimCheck? && pos < |data|
      modifies hold, `phase, `holdLen, `current, `isFile, `received, `events, `started, `aborted, `parts, `fieldsTotal, `payload, `log
      ensures Valid() && pos < p <= |data|
      ensures old(aborted) ==> aborted && Calls(events) == old(Calls(events))
      ensures Tracked(cfg, old(Seen()), pos, Seen(), events, p, data)
    {
      ghost var c := Seen();
      p := HoldTwo(data, pos);
      if holdLen < 2 {
        CheckWaits(Lens(cfg), c, data, pos, p);
      } else {
        assert hold[..2] == hold[..holdLen];
        Decide(data, pos, p, c);
      }
    }

    // ----- the interface -----

    /** The body has ended, well or not: nothing more is looked at. */
    method TakeRest(data: Bytes, pos: nat) returns (p: nat)
      requires Valid() && pos < |data| && (phase.Epilogue? || phase.Error?)
      ensures pos <= p <= |data| && (phase.Epilogue? ==> pos < p)
      ensures Tracked(cfg, Seen(), pos, Seen(), events, p, data)
    {
      p := if phase.Epilogue? then |data| else pos;
      TrackedIdle(cfg, Seen(), events, pos, p, data);
    }

    /** In front of a part. */
    method TakeOutside(data: Bytes, pos: nat) returns (p: nat)
      requires Valid() && pos < |data| && (phase.Preamble? || phase.AfterBoundary? || phase.PartHeader?)
      modifies this, hold, header
      ensures Valid() && pos <= p <= |data| && bufferPos == old(bufferPos)
      ensures old(aborted) ==> aborted && Calls(events) == old(Calls(events))
      ensures phase.Error? || pos < p || (old(phase).AfterBoundary? && phase.PartHeader?)
      ensures Tracked(cfg, old(Seen()), pos, Seen(), events, p, data)
    {
      if phase.Preamble? {
        p := TakePreamble(data, pos);
      } else if phase.AfterBoundary? {
        TakeBoundary(data, pos);
        p := pos;
      } else {
        p := TakeHeader(data, pos);
      }
    }

    /** One round of the loop over a piece of the body. */
    method TakeSome(data: Bytes, pos: nat) returns (p: nat)
      requires Valid() && pos < |data|
      modifies this, hold, header
      ensures Valid() && pos <= p <= |data| && bufferPos == old(bufferPos)
      ensures old(aborted) ==> aborted && Calls(events) == old(Calls(events))
      ensures phase.Error? || pos < p || (old(phase).AfterBoundary? && phase.PartHeader?)
      ensures Tracked(cfg, old(Seen()), pos, Seen(), events, p, data)
    {
      match phase
      case PartData => p := TakeData(data, pos);
      case DelimCheck => p := TakeCheck(data, pos);
      case Epilogue => p := TakeRest(data, pos);
      case Error => p := TakeRest(data, pos);
      case _ => p := TakeOutside(data, pos);
    }

    /** The loop over a piece of the body. */
    method TakeAll(data: Bytes)
      requires Valid()
      modifies this, hold, header
      ensures Valid() && bufferPos == old(bufferPos)
      ensures old(aborted) ==> aborted && Calls(events) == old(Calls(events))
      ensures !old(aborted) ==> Begins(Heard(events), RunAll(Lens(cfg), old(Seen()), data).book.events)
      ensures Measured() || old(aborted) ==> Seen() == RunAll(Lens(cfg), old(Seen()), data)
    {
      ghost var c := Seen();
      var pos := 0;
      while pos < |data|
        invariant Valid() && pos <= |data| && bufferPos == old(bufferPos)
        invariant old(aborted) ==> aborted && Calls(events) == old(Calls(events))
        invariant Tracked(cfg, c, 0, Seen(), events, pos, data)
        decreases |data| - pos, phase.AfterBoundary?
      {
        pos := TakeNext(data, pos, c);
        if phase.Error? {
          break;
        }
      }
      RunRest(Lens(cfg), c, Seen(), pos, data);
      HeardBegins(events, Coalesce(events));
    }

    method TakeNext(data: Bytes, pos: nat, ghost c: Core) returns (p: nat)
      requires Valid() && pos < |data| && Tracked(cfg, c, 0, Seen(), events, pos, data) && (c.book.aborted ==> aborted)
      modifies this, hold, header
      ensures Valid() && pos <= p <= |data| && bufferPos == old(bufferPos)
      ensures old(aborted) ==> aborted && Calls(events) == old(Calls(events))
      ensures phase.Error? || pos < p || (old(phase).AfterBoundary? && phase.PartHeader?)
      ensures Tracked(cfg, c, 0, Seen(), events, p, data)
    {
      ghost var c1, t1 := Seen(), events;
      p := TakeSome(data, pos);
      TrackedOn(cfg, c, c1, t1, pos, Seen(), events, p, data);
    }

    /** No file is left without its end, neither with the handler nor in the book. */
    ghost predicate AllEnded()
      reads `isFile, `current, `started, `events
    {
      var s := Tell(cfg.aborts, events);
      !started && (current ==> !isFile) && s.Story? && s.running.None?
    }

    /** What the caller is told: an error in the body, more to come, or its end. */
    ghost function Answer(data: Bytes): Outcome
      reads `phase, `bufferPos
    {
      if data != [] && phase.Error? then Failed
      else if bufferPos < cfg.contentLength then More
      else if phase.Epilogue? then Complete
      else Failed
    }

    /** The state of a receiver is one that the machine can be in. */
    lemma InPlace()
      requires Valid()
      ensures Placed(Lens(cfg), Seen())
    {
      ReplayInv(cfg, log);
      SeenPlaced(cfg, Seen(), Ledger());
    }

    /** The answer to a call, and the end of a file that the body has left open. */
    method Verdict(data: Bytes) returns (outcome: Outcome)
      requires Valid()
      modifies `current, `isFile, `parts, `events, `started, `aborted, `log
      ensures Valid()
      ensures old(aborted) ==> aborted && Calls(events) == old(Calls(events))
      ensures !old(aborted) && aborted ==> Calls(events) == old(events)
      ensures Measured() || old(aborted) ==> Fed(Seen(), bufferPos, outcome) == Conclude(Lens(cfg), old(Seen()), bufferPos, data)
      ensures bufferPos >= cfg.contentLength ==> !started
      ensures outcome == Answer(data)
      ensures outcome.Complete? ==> Closed(Ledger())
    {
      if data != [] && phase.Error? {
        outcome := Failed;
      } else if bufferPos < cfg.contentLength {
        outcome := More;
      } else if phase.Epilogue? {
        outcome := Complete;
      } else {
        Finish(false);
        outcome := Failed;
      }
    }

    method TakePiece(data: Bytes)
      requires Valid()
      modifies this, hold, header
      ensures Valid() && bufferPos == old(bufferPos) + |data|
      ensures old(aborted) ==> aborted && Calls(events) == old(Calls(events))
      ensures !old(aborted) ==> Begins(Heard(events), RunAll(Lens(cfg), old(Seen()), data).book.events)
      ensures Measured() || old(aborted) ==> Seen() == RunAll(Lens(cfg), old(Seen()), data)
    {
      ghost var c := Seen();
      bufferPos := bufferPos + |data|;
      assert Seen() == c;
      TakeAll(data);
    }

    /** The same against the machine, which has come to `r`. */
    method ConcludePiece(data: Bytes, ghost r: Core, ghost heard: bool) returns (outcome: Outcome)
      requires Valid() && (Measured() || !heard ==> Seen() == r) && (heard ==> Begins(Heard(events), r.book.events))
      requires heard || aborted
      modifies `current, `isFile, `parts, `events, `started, `aborted, `log
      ensures Valid()
      ensures old(aborted) ==> aborted && Calls(events) == old(Calls(events))
      ensures heard ==> Begins(Heard(events), Conclude(Lens(cfg), r, bufferPos, data).core.book.events)
      ensures Measured() || !heard ==> Fed(Seen(), bufferPos, outcome) == Conclude(Lens(cfg), r, bufferPos, data)
      ensures bufferPos >= cfg.contentLength ==> AllEnded()
      ensures outcome == Answer(data)
      ensures outcome.Complete? ==> Closed(Ledger())
    {
      ghost var t, a := events, aborted;
      outcome := Verdict(data);
      HeardBegins(events, Coalesce(events));
      if heard && aborted {
        ConcludeHeard(cfg, r, t, a, events, bufferPos, data);
      }
      Protocol();
    }

    method FeedPiece(data: Bytes) returns (outcome: Outcome)
      requires Valid()
      modifies this, hold, header
      ensures Valid() && bufferPos == old(bufferPos) + |data|
      ensures old(aborted) ==> aborted && Calls(events) == old(Calls(events))
      ensures var r := RunAll(Lens(cfg), old(Seen()), data);
              && (!old(aborted) ==> Begins(Heard(events), Conclude(Lens(cfg), r, bufferPos, data).core.book.events))
              && (Measured() || old(aborted) ==> Fed(Seen(), bufferPos, outcome) == Conclude(Lens(cfg), r, bufferPos, data))
      ensures bufferPos >= cfg.contentLength ==> AllEnded()
      ensures outcome == Answer(data)
      ensures outcome.Complete? ==> Closed(Ledger())
    {
      ghost var c := Seen();
      TakePiece(data);
      outcome := ConcludePiece(data, RunAll(Lens(cfg), c, data), !c.book.aborted);
    }

    /** A piece of the body. For every handler, as long as the upload is not aborted, and
        always for one that is blind to the cuts, this does what feeding the octets one by
        one does; a handler that aborts has heard the beginning of it. */
    method Feed(data: Bytes) returns (outcome: Outcome)
      requires Valid()
      modifies this, hold, header
      ensures Valid() && bufferPos == old(bufferPos) + |data|
      ensures old(aborted) ==> aborted && Calls(events) == old(Calls(events))
      ensures !old(aborted) ==>
                Begins(Heard(events), MultipartMachine.Feed(Lens(cfg), old(Seen()), old(bufferPos), data).core.book.events)
      ensures Measured() || old(aborted) ==>
                Fed(Seen(), bufferPos, outcome) == MultipartMachine.Feed(Lens(cfg), old(Seen()), old(bufferPos), data)
      ensures Measured() || old(aborted) ==>
                var r := RunAll(Lens(cfg), old(Seen()), data);
                if bufferPos >= cfg.contentLength && r.book.started then outcome.Failed? && BrokenOff(r.book, Seen().book)
                else Seen() == r
      ensures bufferPos >= cfg.contentLength ==> AllEnded()
      ensures outcome == Answer(data)
      ensures outcome.Complete? ==> Closed(Ledger())
      ensures |parts| <= 64 && (aborted ==> !phase.Error?)
    {
      ghost var c := Seen();
      InPlace();
      RunPlaced(Lens(cfg), c, data, 0, |data|);
      outcome := FeedPiece(data);
      EndOfBody(Lens(cfg), RunAll(Lens(cfg), c, data), bufferPos, data);
    }

    /** An open part gets its end. */
    method EndOpen(success: bool)
      requires Valid()
      modifies `current, `isFile, `parts, `events, `started, `aborted, `log
      ensures Valid() && !started && Ledger() == MultipartMachine.Finish(cfg, old(Ledger()), success)
      ensures old(aborted) ==> aborted && Calls(events) == old(Calls(events))
    {
      if started {
        FailedEnd(success);
        EndPart(success);
      }
    }

    /** End the stream, e.g. when the connection is lost: an open part gets its end. */
    method Finish(success: bool)
      requires Valid()
      modifies `current, `isFile, `parts, `events, `started, `aborted, `log
      ensures Valid() && !started && Ledger() == MultipartMachine.Finish(cfg, old(Ledger()), success)
      ensures Measured() || old(aborted) ==> Seen() == old(Seen()).(book := MultipartMachine.Finish(Lens(cfg), old(Seen()).book, success))
      ensures old(aborted) ==> aborted && Calls(events) == old(Calls(events))
      ensures !old(aborted) && aborted && !success ==> Calls(events) == old(events)
    {
      ghost var c, book := Seen(), Ledger();
      FinishTaken(cfg, log, c, book, success);
      EndOpen(success);
      assert Seen() == c.(book := Normal(Ledger()));
    }

    /** What the handler has been told, at any time and whatever it does: whole parts one
        after the other, the open one last, and nothing but failed ends after an abort. */
    lemma Protocol()
      requires Valid()
      ensures Inv(cfg, Ledger())
      ensures var s := Tell(cfg.aborts, events);
              s.Story? && (s.running.Some? <==> started) && Hushed(cfg.aborts, events)
    {
      ReplayInv(cfg, log);
    }

    /** The list in body order, by moving one entry after the other. */
    static method TurnList(list: seq<Entry>) returns (reversed: seq<Entry>)
      ensures reversed == Turned(list)
    {
      var left := list;
      reversed := [];
      while left != []
        invariant Turned(left) + reversed == Turned(list)
        decreases |left|
      {
        assert Turned(left) + reversed == Turned(left[1..]) + ([left[0]] + reversed);
        reversed := [left[0]] + reversed;
        left := left[1..];
      }
    }

    static method PickFiles(list: seq<Entry>, discard: bool) returns (uploads: seq<(Bytes, nat)>)
      ensures uploads == if discard then [] else UploadsOf(list)
    {
      uploads := [];
      for i := 0 to |list|
        invariant uploads == if discard then [] else UploadsOf(list[..i])
      {
        var e := list[i];
        assert list[..i + 1][..i] == list[..i];
        if e.isFile && !discard && !e.failed && !e.truncated {
          uploads := uploads + [(e.name, e.length)];
        }
      }
      assert list[..|list|] == list;
    }

    /** Hand the list of received files to the request: turn the list round, then
        keep what is a file and did not fail. Without an open part the list says
        what the handler's trace says. */
    method FillUploadInfo() returns (uploads: seq<(Bytes, nat)>)
      requires Valid()
      modifies `parts, `current, `partsCount
      ensures parts == [] && !current && partsCount == 0
      ensures uploads == Kept(Files(old(View(parts))))
      ensures !old(current) ==> uploads == Reported(cfg.aborts, events)
      ensures forall x :: x in uploads <==> HandedOn(old(View(parts)), x)
    {
      ReplayReported(cfg, log);
      AllHandedOn(View(parts));
      UploadsTurned(parts);
      var reversed := TurnList(parts);
      uploads := PickFiles(reversed, cfg.discard);
      parts, current, partsCount := [], false, 0;
    }

    /** The rest of the body, and what lies behind it. */
    static method Share(data: Bytes, remaining: nat) returns (use: Bytes, left: Bytes)
      ensures data == use + left && |use| <= remaining && (left != [] ==> |use| == remaining)
    {
      var n := if |data| > remaining then remaining else |data|;
      use, left := data[..n], data[n..];
    }

    /** Data from the socket: what lies behind the body belongs to the next request. */
    method Receive(data: Bytes) returns (outcome: Outcome, left: Bytes, ghost used: Bytes)
      requires Valid() && bufferPos <= cfg.contentLength
      modifies this, hold, header
      ensures Valid() && data == used + left && bufferPos == old(bufferPos) + |used| <= cfg.contentLength
      ensures left != [] ==> bufferPos == cfg.contentLength
      ensures old(aborted) ==> aborted && Calls(events) == old(Calls(events))
      ensures !old(aborted) ==>
                Begins(Heard(events), MultipartMachine.Feed(Lens(cfg), old(Seen()), old(bufferPos), used).core.book.events)
      ensures Measured() || old(aborted) ==>
                Fed(Seen(), bufferPos, outcome) == MultipartMachine.Feed(Lens(cfg), old(Seen()), old(bufferPos), used)
      ensures Measured() || old(aborted) ==>
                var r := RunAll(Lens(cfg), old(Seen()), used);
                if bufferPos >= cfg.contentLength && r.book.started then outcome.Failed? && BrokenOff(r.book, Seen().book)
                else Seen() == r
      ensures bufferPos >= cfg.contentLength ==> AllEnded()
      ensures outcome == Answer(used)
    {
      var piece;
      piece, left := Share(data, cfg.contentLength - bufferPos);
      used := piece;
      outcome := Feed(piece);
    }
  }
}
