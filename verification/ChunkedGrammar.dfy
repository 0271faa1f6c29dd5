/** The chunked coding as a grammar with strict CRLF, and the scanner measured
    against it: it is done exactly when a complete body has gone by. */
module ChunkedGrammar {
  import opened Bytes
  import opened Folding
  import opened ChunkedScanner

  // ----- the grammar -----

  /** digits ext CRLF data CRLF */
  datatype Piece = Piece(digits: Bytes, ext: Bytes, data: Bytes)

  /** Pieces, then the null chunk with its own line, then trailer lines, then CRLF. */
  datatype Body = Body(pieces: seq<Piece>, digits: Bytes, ext: Bytes, lines: seq<Bytes>)

  const LOWER := "0123456789abcdef"
  const UPPER := "0123456789ABCDEF"

  /** The octet is the digit `v`, in either case. */
  ghost predicate Stands(c: byte, v: nat) {
    v < 16 && (c as char == LOWER[v] || c as char == UPPER[v])
  }

  ghost predicate Digit(c: byte) {
    exists v :: Stands(c, v)
  }

  ghost function DigitOf(c: byte): (v: nat)
    requires Digit(c)
    ensures Stands(c, v)
  {
    var v :| Stands(c, v);
    v
  }

  ghost predicate AllHex(w: Bytes) {
    forall i :: 0 <= i < |w| ==> Digit(w[i])
  }

  /** The number that hexadecimal digits stand for. */
  ghost function Value(w: Bytes): nat
    requires AllHex(w)
    decreases |w|
  {
    if w == [] then 0 else 16 * Value(w[..|w| - 1]) + DigitOf(w[|w| - 1])
  }

  /** The scanner's digits are those, with their values. */
  lemma {:induction false} DigitIff(c: byte, v: nat)
    ensures Stands(c, v) <==> IsHex(c) && HexDigit(c) == v
  {
    if v < 10 {
      assert LOWER[v] == UPPER[v] == (48 + v) as char;
    } else if v < 16 {
      assert LOWER[v] == (87 + v) as char && UPPER[v] == (55 + v) as char;
    }
  }

  lemma {:induction false} DigitRead(c: byte)
    ensures Digit(c) <==> IsHex(c)
    ensures Digit(c) ==> DigitOf(c) == HexDigit(c)
  {
    if IsHex(c) {
      DigitIff(c, HexDigit(c));
    }
    if Digit(c) {
      DigitIff(c, DigitOf(c));
    }
  }

  ghost predicate NoBreak(w: Bytes) {
    forall i :: 0 <= i < |w| ==> w[i] != CR && w[i] != LF
  }

  ghost predicate SizeOk(digits: Bytes) {
    digits != [] && AllHex(digits) && Value(digits) < 0x8000_0000_0000_0000
  }

  ghost predicate ExtOk(ext: Bytes) {
    NoBreak(ext) && (ext != [] ==> ext[0] as char in {';', ' ', '\t'})
  }

  ghost predicate PieceOk(p: Piece) {
    SizeOk(p.digits) && ExtOk(p.ext) && Value(p.digits) == |p.data| && p.data != []
  }

  ghost predicate LineOk(w: Bytes) {
    w != [] && NoBreak(w)
  }

  ghost predicate PiecesOk(ps: seq<Piece>) {
    forall i :: 0 <= i < |ps| ==> PieceOk(ps[i])
  }

  ghost predicate LinesOk(ls: seq<Bytes>) {
    forall i :: 0 <= i < |ls| ==> LineOk(ls[i])
  }

  ghost predicate BodyOk(b: Body) {
    && PiecesOk(b.pieces) && LinesOk(b.lines)
    && SizeOk(b.digits) && Value(b.digits) == 0 && ExtOk(b.ext)
  }

  function SizeLine(digits: Bytes, ext: Bytes): Bytes {
    digits + ext + CRLF
  }

  function TextOf(p: Piece): Bytes {
    SizeLine(p.digits, p.ext) + p.data + CRLF
  }

  function Pieces(ps: seq<Piece>): Bytes
    decreases |ps|
  {
    if ps == [] then [] else Pieces(ps[..|ps| - 1]) + TextOf(ps[|ps| - 1])
  }

  function Lines(ls: seq<Bytes>): Bytes
    decreases |ls|
  {
    if ls == [] then [] else Lines(ls[..|ls| - 1]) + (ls[|ls| - 1] + CRLF)
  }

  /** Everything before the final CRLF. */
  function Open(b: Body): Bytes {
    Pieces(b.pieces) + SizeLine(b.digits, b.ext) + Lines(b.lines)
  }

  function Text(b: Body): Bytes {
    Open(b) + CRLF
  }

  lemma {:induction false} RunJoin(s: Scan, a: Bytes, b: Bytes)
    ensures Run(s, a + b) == Run(Run(s, a), b)
  {
    FoldConcat(Stepper(), s, a, b);
  }

  // ----- complete: every body of the grammar is recognised -----

  lemma {:induction false} RunDigits(z: nat, w: Bytes)
    requires SizeOk(w)
    ensures Run(Scan(SizeStart, z), w) == Scan(Size, Value(w))
    decreases |w|
  {
    var n := |w| - 1;
    var v := w[..n];
    assert w == v + [w[n]];
    RunSnoc(Scan(SizeStart, z), v, w[n]);
    DigitRead(w[n]);
    assert Value(w) == 16 * Value(v) + HexDigit(w[n]);
    if n == 0 {
      assert v == [];
    } else {
      DigitFits(Value(v), w[n]);
      RunDigits(z, v);
    }
  }

  lemma {:induction false} RunSnoc(s: Scan, v: Bytes, c: byte)
    ensures Run(s, v + [c]) == Step(Run(s, v), c)
  {
    FoldConcat(Stepper(), s, v, [c]);
    FoldOne(Stepper(), Run(s, v), c);
  }

  /** The test before the multiplication is exact. */
  lemma {:induction false} DigitFits(size: nat, c: byte)
    requires IsHex(c)
    ensures Step(Scan(Size, size), c) ==
            if 16 * size + HexDigit(c) <= SIZE_MAX then Scan(Size, 16 * size + HexDigit(c)) else Scan(Error, size)
  {
    var d := HexDigit(c);
    assert size <= (SIZE_MAX - d) / 16 <==> 16 * size <= SIZE_MAX - d;
  }

  lemma {:induction false} RunPlain(s: Scan, w: Bytes)
    requires (s.phase.Ext? || s.phase.TrailerLine?) && NoBreak(w)
    ensures Run(s, w) == s
    decreases |w|
  {
    if w != [] {
      var n := |w| - 1;
      assert w == w[..n] + [w[n]];
      FoldConcat(Stepper(), s, w[..n], [w[n]]);
      RunPlain(s, w[..n]);
      FoldOne(Stepper(), s, w[n]);
    }
  }

  lemma {:induction false} RunExt(v: nat, ext: Bytes)
    requires ExtOk(ext)
    ensures Run(Scan(Size, v), ext + [CR]) == Scan(SizeLf, v)
  {
    var s := Scan(Size, v);
    FoldConcat(Stepper(), s, ext, [CR]);
    if ext == [] {
      FoldOne(Stepper(), s, CR);
    } else {
      assert ext == [ext[0]] + ext[1..];
      FoldConcat(Stepper(), s, [ext[0]], ext[1..]);
      FoldOne(Stepper(), s, ext[0]);
      RunPlain(Scan(Ext, v), ext[1..]);
      FoldOne(Stepper(), Scan(Ext, v), CR);
    }
  }

  lemma {:induction false} RunSizeLine(z: nat, digits: Bytes, ext: Bytes)
    requires SizeOk(digits) && ExtOk(ext)
    ensures Run(Scan(SizeStart, z), SizeLine(digits, ext)) ==
            Scan(if Value(digits) == 0 then Trailer else Data, Value(digits))
  {
    var s := Scan(SizeStart, z);
    assert SizeLine(digits, ext) == digits + ((ext + [CR]) + [LF]);
    FoldConcat(Stepper(), s, digits, (ext + [CR]) + [LF]);
    RunDigits(z, digits);
    FoldConcat(Stepper(), Scan(Size, Value(digits)), ext + [CR], [LF]);
    RunExt(Value(digits), ext);
    FoldOne(Stepper(), Scan(SizeLf, Value(digits)), LF);
  }

  lemma {:induction false} RunTwo(s: Scan, x: byte, y: byte)
    ensures Run(s, [x, y]) == Step(Step(s, x), y)
  {
    assert [x, y] == [x] + [y];
    FoldConcat(Stepper(), s, [x], [y]);
    FoldOne(Stepper(), s, x);
    FoldOne(Stepper(), Step(s, x), y);
  }

  lemma {:induction false} RunPiece(z: nat, p: Piece)
    requires PieceOk(p)
    ensures Run(Scan(SizeStart, z), TextOf(p)) == START
  {
    var s := Scan(SizeStart, z);
    var line := SizeLine(p.digits, p.ext);
    FoldConcat(Stepper(), s, line + p.data, CRLF);
    FoldConcat(Stepper(), s, line, p.data);
    RunSizeLine(z, p.digits, p.ext);
    RunData(|p.data|, p.data, 0, |p.data|);
    RunTwo(Scan(DataCr, 0), CR, LF);
  }

  lemma {:induction false} RunPieces(ps: seq<Piece>)
    requires PiecesOk(ps)
    ensures Run(START, Pieces(ps)) == START
    decreases |ps|
  {
    if ps != [] {
      var n := |ps| - 1;
      RunPieces(ps[..n]);
      FoldConcat(Stepper(), START, Pieces(ps[..n]), TextOf(ps[n]));
      RunPiece(0, ps[n]);
    }
  }

  lemma {:induction false} RunLines(ls: seq<Bytes>)
    requires LinesOk(ls)
    ensures Run(Scan(Trailer, 0), Lines(ls)) == Scan(Trailer, 0)
    decreases |ls|
  {
    if ls != [] {
      var n := |ls| - 1;
      var s := Scan(Trailer, 0);
      RunLines(ls[..n]);
      FoldConcat(Stepper(), s, Lines(ls[..n]), ls[n] + CRLF);
      FoldConcat(Stepper(), s, ls[n], CRLF);
      var w := ls[n];
      assert w == [w[0]] + w[1..];
      FoldConcat(Stepper(), s, [w[0]], w[1..]);
      FoldOne(Stepper(), s, w[0]);
      RunPlain(Scan(TrailerLine, 0), w[1..]);
      RunTwo(Scan(TrailerLine, 0), CR, LF);
    }
  }

  lemma {:induction false} RunOpen(b: Body)
    requires BodyOk(b)
    ensures Run(START, Open(b)) == Scan(Trailer, 0)
  {
    var head := Pieces(b.pieces) + SizeLine(b.digits, b.ext);
    FoldConcat(Stepper(), START, head, Lines(b.lines));
    FoldConcat(Stepper(), START, Pieces(b.pieces), SizeLine(b.digits, b.ext));
    RunPieces(b.pieces);
    RunSizeLine(0, b.digits, b.ext);
    RunLines(b.lines);
  }

  /** Done with the last octet of the body, and not before. */
  lemma {:induction false} DoneAtTheEnd(b: Body)
    requires BodyOk(b)
    ensures Run(START, Text(b)).phase.Done?
    ensures forall k :: 0 <= k < |Text(b)| ==> !Run(START, Text(b)[..k]).phase.Done?
  {
    var t := Text(b);
    RunOpen(b);
    FoldConcat(Stepper(), START, Open(b), CRLF);
    RunTwo(Scan(Trailer, 0), CR, LF);
    var n := |t| - 1;
    assert t[..n] == Open(b) + [CR];
    FoldConcat(Stepper(), START, Open(b), [CR]);
    FoldOne(Stepper(), Scan(Trailer, 0), CR);
    forall k | 0 <= k < |t| ensures !Run(START, t[..k]).phase.Done? {
      NotDoneBefore(t[..n], k);
      assert t[..n][..k] == t[..k];
    }
  }

  lemma {:induction false} NotDoneBefore(w: Bytes, k: nat)
    requires k <= |w| && !Run(START, w).phase.Done?
    ensures !Run(START, w[..k]).phase.Done?
  {
    assert w == w[..k] + w[k..];
    FoldConcat(Stepper(), START, w[..k], w[k..]);
    if Run(START, w[..k]).phase.Done? {
      RunFinal(Run(START, w[..k]), w[k..], 0, |w[k..]|);
    }
  }

  // ----- sound: whatever is recognised is a body of the grammar -----

  /** A body read in part. */
  datatype Draft = Draft(pieces: seq<Piece>, digits: Bytes, ext: Bytes, data: Bytes, lines: seq<Bytes>, line: Bytes)

  /** `s` is where the scanner stands after the text `t`, and `d` says how `t` is
      made up. */
  ghost predicate Explains(s: Scan, t: Bytes, d: Draft) {
    && PiecesOk(d.pieces) && LinesOk(d.lines)
    && (!s.phase.SizeStart? && !s.phase.Error? ==> SizeOk(d.digits) && ExtOk(d.ext))
    && match s.phase
       case SizeStart => t == Pieces(d.pieces)
       case Size => t == Pieces(d.pieces) + d.digits && d.ext == [] && s.size == Value(d.digits)
       case Ext => t == Pieces(d.pieces) + (d.digits + d.ext) && d.ext != [] && s.size == Value(d.digits)
       case SizeLf => t == Pieces(d.pieces) + (d.digits + d.ext + [CR]) && s.size == Value(d.digits)
       case Data =>
         && t == Pieces(d.pieces) + (SizeLine(d.digits, d.ext) + d.data)
         && s.size > 0 && |d.data| + s.size == Value(d.digits)
       case DataCr =>
         && t == Pieces(d.pieces) + (SizeLine(d.digits, d.ext) + d.data)
         && 0 < |d.data| == Value(d.digits)
       case DataLf =>
         && t == Pieces(d.pieces) + (SizeLine(d.digits, d.ext) + d.data + [CR])
         && 0 < |d.data| == Value(d.digits)
       case Trailer => t == Opening(d) && Value(d.digits) == 0
       case TrailerLf => t == Opening(d) + [CR] && Value(d.digits) == 0
       case TrailerLine => t == Opening(d) + d.line && LineOk(d.line) && Value(d.digits) == 0
       case TrailerLineLf => t == Opening(d) + (d.line + [CR]) && LineOk(d.line) && Value(d.digits) == 0
       case Done => Value(d.digits) == 0 && Text(Finish(d)) <= t
       case Error => true
  }

  function Finish(d: Draft): Body {
    Body(d.pieces, d.digits, d.ext, d.lines)
  }

  function Opening(d: Draft): Bytes {
    Open(Finish(d))
  }

  lemma {:induction false} ExplainFirst(s: Scan, t: Bytes, d: Draft, c: byte) returns (d': Draft)
    requires Explains(s, t, d) && s.phase.SizeStart?
    ensures Explains(Step(s, c), t + [c], d')
  {
    DigitRead(c);
    d' := d.(digits := [c], ext := []);
    assert [c][..0] == [];
  }

  lemma {:induction false} ExplainDigit(s: Scan, t: Bytes, d: Draft, c: byte) returns (d': Draft)
    requires Explains(s, t, d) && s.phase.Size? && IsHex(c)
    ensures Explains(Step(s, c), t + [c], d')
  {
    DigitRead(c);
    d' := d.(digits := d.digits + [c]);
    assert (d.digits + [c])[..|d.digits|] == d.digits;
    assert t + [c] == Pieces(d.pieces) + d'.digits;
  }

  lemma {:induction false} ExplainExt(s: Scan, t: Bytes, d: Draft, c: byte) returns (d': Draft)
    requires Explains(s, t, d) && ((s.phase.Size? && !IsHex(c)) || s.phase.Ext?)
    ensures Explains(Step(s, c), t + [c], d')
  {
    d' := if c == CR then d else d.(ext := d.ext + [c]);
    assert t == Pieces(d.pieces) + (d.digits + d.ext);
    assert t + [c] == Pieces(d.pieces) + (d.digits + (d.ext + [c]));
    assert d.digits + (d.ext + [c]) == d.digits + d.ext + [c];
  }

  lemma {:induction false} ExplainSizeEnd(s: Scan, t: Bytes, d: Draft, c: byte) returns (d': Draft)
    requires Explains(s, t, d) && s.phase.SizeLf?
    ensures Explains(Step(s, c), t + [c], d')
  {
    d' := d.(data := [], lines := []);
    if c == LF {
      var line := SizeLine(d.digits, d.ext);
      assert t + [c] == Pieces(d.pieces) + line;
      assert line + [] == line;
      assert Opening(d') == Pieces(d.pieces) + line + [];
    }
  }

  lemma {:induction false} ExplainData(s: Scan, t: Bytes, d: Draft, c: byte) returns (d': Draft)
    requires Explains(s, t, d) && (s.phase.Data? || s.phase.DataCr?)
    ensures Explains(Step(s, c), t + [c], d')
  {
    var line := SizeLine(d.digits, d.ext);
    d' := if s.phase.Data? then d.(data := d.data + [c]) else d;
    assert t + [c] == Pieces(d.pieces) + (line + d.data + [c]);
    assert line + d.data + [c] == line + (d.data + [c]);
  }

  lemma {:induction false} ExplainPiece(s: Scan, t: Bytes, d: Draft, c: byte) returns (d': Draft)
    requires Explains(s, t, d) && s.phase.DataLf?
    ensures Explains(Step(s, c), t + [c], d')
  {
    d' := d;
    if c == LF {
      var p := Piece(d.digits, d.ext, d.data);
      d' := d.(pieces := d.pieces + [p]);
      assert d'.pieces[..|d.pieces|] == d.pieces;
      assert SizeLine(d.digits, d.ext) + d.data + [CR] + [LF] == TextOf(p);
      assert t + [c] == Pieces(d.pieces) + TextOf(p);
    }
  }

  lemma {:induction false} ExplainTrailer(s: Scan, t: Bytes, d: Draft, c: byte) returns (d': Draft)
    requires Explains(s, t, d) && (s.phase.Trailer? || s.phase.TrailerLf?)
    ensures Explains(Step(s, c), t + [c], d')
  {
    d' := d.(line := [c]);
    assert Opening(d') == Opening(d);
    if s.phase.TrailerLf? && c == LF {
      assert t + [c] == Text(Finish(d));
    }
  }

  lemma {:induction false} ExplainInLine(s: Scan, t: Bytes, d: Draft, c: byte) returns (d': Draft)
    requires Explains(s, t, d) && s.phase.TrailerLine?
    ensures Explains(Step(s, c), t + [c], d')
  {
    d' := if c == CR then d else d.(line := d.line + [c]);
    assert Opening(d') == Opening(d);
    assert t + [c] == Opening(d) + (d.line + [c]);
  }

  lemma {:induction false} ExplainLine(s: Scan, t: Bytes, d: Draft, c: byte) returns (d': Draft)
    requires Explains(s, t, d) && s.phase.TrailerLineLf?
    ensures Explains(Step(s, c), t + [c], d')
  {
    d' := d;
    if c == LF {
      d' := d.(lines := d.lines + [d.line]);
      LinesMore(d.lines, d.line);
      var head := Pieces(d.pieces) + SizeLine(d.digits, d.ext);
      assert Opening(d') == head + (Lines(d.lines) + (d.line + CRLF));
      assert t + [c] == (head + Lines(d.lines)) + (d.line + CRLF);
    }
  }

  lemma {:induction false} LinesMore(ls: seq<Bytes>, l: Bytes)
    ensures Lines(ls + [l]) == Lines(ls) + (l + CRLF)
  {
    assert (ls + [l])[..|ls|] == ls;
  }

  lemma {:induction false} Explain(t: Bytes) returns (d: Draft)
    ensures Explains(Run(START, t), t, d)
    decreases |t|
  {
    if t == [] {
      d := Draft([], [], [], [], [], []);
    } else {
      var n := |t| - 1;
      var u, c := t[..n], t[n];
      var e := Explain(u);
      var s := Run(START, u);
      assert t == u + [c];
      FoldConcat(Stepper(), START, u, [c]);
      FoldOne(Stepper(), s, c);
      d := ExplainNext(s, u, e, c);
    }
  }

  lemma {:induction false} ExplainNext(s: Scan, t: Bytes, d: Draft, c: byte) returns (d': Draft)
    requires Explains(s, t, d)
    ensures Explains(Step(s, c), t + [c], d')
  {
    match s.phase
    case SizeStart => d' := ExplainFirst(s, t, d, c);
    case Size =>
      if IsHex(c) {
        d' := ExplainDigit(s, t, d, c);
      } else {
        d' := ExplainExt(s, t, d, c);
      }
    case Ext => d' := ExplainExt(s, t, d, c);
    case SizeLf => d' := ExplainSizeEnd(s, t, d, c);
    case Data => d' := ExplainData(s, t, d, c);
    case DataCr => d' := ExplainData(s, t, d, c);
    case DataLf => d' := ExplainPiece(s, t, d, c);
    case Trailer => d' := ExplainTrailer(s, t, d, c);
    case TrailerLf => d' := ExplainTrailer(s, t, d, c);
    case TrailerLine => d' := ExplainInLine(s, t, d, c);
    case TrailerLineLf => d' := ExplainLine(s, t, d, c);
    case Done => d' := d;
    case Error => d' := d;
  }

  /** Sound and complete: the scanner is done exactly when what it has seen begins
      with a complete body of the grammar - however the octets arrived. */
  lemma {:induction false} DoneIff(t: Bytes)
    ensures Run(START, t).phase.Done? <==> exists b :: BodyOk(b) && Text(b) <= t
  {
    if Run(START, t).phase.Done? {
      var d := Explain(t);
      assert BodyOk(Finish(d)) && Text(Finish(d)) <= t;
    }
    if b :| BodyOk(b) && Text(b) <= t {
      var w := Text(b);
      DoneAtTheEnd(b);
      assert t == w + t[|w|..];
      FoldConcat(Stepper(), START, w, t[|w|..]);
      RunFinal(Run(START, w), t[|w|..], 0, |t[|w|..]|);
    }
  }

  /** An error is never a valid response cut short: nothing that follows could
      have completed a body. */
  lemma {:induction false} ErrorIsHopeless(t: Bytes, u: Bytes, b: Body)
    requires Run(START, t).phase.Error? && BodyOk(b)
    ensures !(Text(b) <= t + u)
  {
    FoldConcat(Stepper(), START, t, u);
    RunFinal(Run(START, t), u, 0, |u|);
    DoneIff(t + u);
  }

  // ----- as long as there is no error, a body can still be completed -----

  /** How far it is to the end: in front of the null chunk, or of a chunk with data. */
  function ToGo(s: Scan): nat {
    match s.phase
    case Done => 0
    case Error => 0
    case TrailerLf => 1
    case Trailer => 2
    case TrailerLineLf => 3
    case TrailerLine => 4
    case SizeLf => if s.size == 0 then 3 else 9
    case Ext => if s.size == 0 then 4 else 10
    case Size => if s.size == 0 then 4 else 10
    case SizeStart => 5
    case DataLf => 6
    case DataCr => 7
    case Data => 8
  }

  /** The octet that leads on, where no data is expected. */
  function Onward(s: Scan): byte {
    match s.phase
    case SizeStart => 48
    case SizeLf => LF
    case DataLf => LF
    case TrailerLf => LF
    case TrailerLineLf => LF
    case _ => CR
  }

  lemma {:induction false} LeadsOn(s: Scan)
    requires Sane(s) && !s.phase.Error? && !s.phase.Done? && !s.phase.Data?
    ensures var t := Step(s, Onward(s)); Sane(t) && !t.phase.Error? && ToGo(t) < ToGo(s)
  {
  }

  /** The data that is missing, and what ends it. */
  lemma {:induction false} DataAndOn(n: nat, v: Bytes) returns (u: Bytes)
    requires n > 0 && Run(Scan(DataCr, 0), v).phase.Done?
    ensures Run(Scan(Data, n), u).phase.Done?
  {
    var data := seq(n, _ => 0);
    RunData(n, data, 0, n);
    RunJoin(Scan(Data, n), data, v);
    u := data + v;
  }

  lemma {:induction false} Completion(s: Scan) returns (u: Bytes)
    requires Sane(s) && !s.phase.Error?
    ensures Run(s, u).phase.Done?
    decreases ToGo(s)
  {
    if s.phase.Done? {
      u := [];
    } else if s.phase.Data? {
      var v := Completion(Scan(DataCr, 0));
      u := DataAndOn(s.size, v);
    } else {
      var c := Onward(s);
      LeadsOn(s);
      var v := Completion(Step(s, c));
      FoldOne(Stepper(), s, c);
      RunJoin(s, [c], v);
      u := [c] + v;
    }
  }

  /** An error is given exactly when no continuation could complete a body any more: never
      for a valid response cut short, and at the first octet that makes it hopeless. */
  lemma {:induction false} ErrorIff(t: Bytes)
    ensures Run(START, t).phase.Error? <==> !exists u, b :: BodyOk(b) && Text(b) <= t + u
  {
    if Run(START, t).phase.Error? {
      forall u, b | BodyOk(b) ensures !(Text(b) <= t + u) {
        ErrorIsHopeless(t, u, b);
      }
    } else {
      RunSane(START, t, |t|);
      var u := Completion(Run(START, t));
      RunJoin(START, t, u);
      DoneIff(t + u);
    }
  }

  // ----- a plain sender -----

  /** The digit `v`, as a capital letter if it is one and `capital` is asked for. */
  function DigitFor(v: nat, capital: bool): byte
    requires v < 16
  {
    assert forall i :: 0 <= i < 16 ==> LOWER[i] < 128 as char && UPPER[i] < 128 as char;
    (if capital then UPPER[v] else LOWER[v]) as byte
  }

  /** A number in hexadecimal; `capital` says which of its digits, counted from the last
      one, are capitals. */
  function Hex(n: nat, capital: nat -> bool, k: nat): Bytes {
    if n < 16 then [DigitFor(n, capital(k))] else Hex(n / 16, capital, k + 1) + [DigitFor(n % 16, capital(k))]
  }

  lemma {:induction false} DigitForStands(v: nat, capital: bool)
    requires v < 16
    ensures Digit(DigitFor(v, capital)) && DigitOf(DigitFor(v, capital)) == v
  {
    var c := DigitFor(v, capital);
    assert Stands(c, v);
    DigitIff(c, v);
    DigitRead(c);
  }

  lemma {:induction false} HexMore(n: nat, h: Bytes, c: byte)
    requires AllHex(h) && Digit(c) && Value(h) == n / 16 && DigitOf(c) == n % 16
    ensures AllHex(h + [c]) && Value(h + [c]) == n
  {
    assert (h + [c])[..|h|] == h;
  }

  lemma {:induction false} HexValue(n: nat, capital: nat -> bool, k: nat)
    ensures var h := Hex(n, capital, k); h != [] && AllHex(h) && Value(h) == n
    decreases n
  {
    DigitForStands(n % 16, capital(k));
    var c := DigitFor(n % 16, capital(k));
    if n < 16 {
      HexMore(n, [], c);
      assert [] + [c] == [c];
    } else {
      HexValue(n / 16, capital, k + 1);
      HexMore(n, Hex(n / 16, capital, k + 1), c);
    }
  }

  /** What a sender writes for the given data, without extensions or trailers, and with
      the digits of its sizes in any mixture of cases: `capital(i)` is that of the piece `i`. */
  function Sender(pieces: seq<Bytes>, capital: nat -> nat -> bool): Body {
    Body(seq(|pieces|, i requires 0 <= i < |pieces| => Piece(Hex(|pieces[i]|, capital(i), 0), [], pieces[i])),
         Hex(0, capital(|pieces|), 0), [], [])
  }

  /** A sender's chunks end the response on their very last octet. */
  lemma {:induction false} SenderRecognised(pieces: seq<Bytes>, capital: nat -> nat -> bool)
    requires forall i :: 0 <= i < |pieces| ==> 0 < |pieces[i]| < 0x8000_0000_0000_0000
    ensures var t := Text(Sender(pieces, capital));
            && Run(START, t).phase.Done?
            && forall k :: 0 <= k < |t| ==> !Run(START, t[..k]).phase.Done?
  {
    var b := Sender(pieces, capital);
    HexValue(0, capital(|pieces|), 0);
    forall i | 0 <= i < |b.pieces| ensures PieceOk(b.pieces[i]) {
      HexValue(|pieces[i]|, capital(i), 0);
    }
    DoneAtTheEnd(b);
  }
}
