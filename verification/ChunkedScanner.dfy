/** The restartable scanner for the chunked transfer coding of a proxied response
    (section 7.1 of RFC 9112): it only finds the end of the body. */
module ChunkedScanner {
  import opened Bytes
  import opened Folding

  const SIZE_MAX: nat := 0x7FFF_FFFF_FFFF_FFFF

  datatype Phase =
    | SizeStart | Size | Ext | SizeLf
    | Data | DataCr | DataLf
    | Trailer | TrailerLf | TrailerLine | TrailerLineLf
    | Done | Error

  /** `size` is the size read so far, then the octets of the chunk still to come. */
  datatype Scan = Scan(phase: Phase, size: nat)

  const START: Scan := Scan(SizeStart, 0)

  predicate IsHex(c: byte) {
    48 <= c <= 57 || 97 <= c <= 102 || 65 <= c <= 70
  }

  function HexDigit(c: byte): nat
    requires IsHex(c)
    ensures HexDigit(c) < 16
  {
    if c <= 57 then (c - 48) as nat else if c <= 70 then (c - 55) as nat else (c - 87) as nat
  }

  /** What may follow the size: an extension, or blanks. */
  predicate StartsExt(c: byte) {
    c == 59 || c == 32 || c == 9
  }

  function Step(s: Scan, c: byte): Scan {
    match s.phase
    case SizeStart => if IsHex(c) then Scan(Size, HexDigit(c)) else s.(phase := Error)
    case Size =>
      if IsHex(c) then
        if s.size > (SIZE_MAX - HexDigit(c)) / 16 then s.(phase := Error)
        else s.(size := s.size * 16 + HexDigit(c))
      else if StartsExt(c) then s.(phase := Ext)
      else if c == CR then s.(phase := SizeLf)
      else s.(phase := Error)
    case Ext => if c == CR then s.(phase := SizeLf) else if c == LF then s.(phase := Error) else s
    case SizeLf =>
      if c != LF then s.(phase := Error) else s.(phase := if s.size == 0 then Trailer else Data)
    case Data =>
      if s.size <= 1 then Scan(DataCr, 0) else s.(size := s.size - 1)
    case DataCr => s.(phase := if c == CR then DataLf else Error)
    case DataLf => if c == LF then START else s.(phase := Error)
    case Trailer =>
      s.(phase := if c == CR then TrailerLf else if c == LF then Error else TrailerLine)
    case TrailerLf => s.(phase := if c == LF then Done else Error)
    case TrailerLine =>
      if c == CR then s.(phase := TrailerLineLf) else if c == LF then s.(phase := Error) else s
    case TrailerLineLf => s.(phase := if c == LF then Trailer else Error)
    case Done => s
    case Error => s
  }

  function Stepper(): (Scan, byte) -> Scan {
    (s: Scan, c: byte) => Step(s, c)
  }

  function Run(s: Scan, data: Bytes): Scan {
    FoldAll(Stepper(), s, data)
  }

  /** A chunk being skipped has octets left, and the size never leaves its range. */
  predicate Sane(s: Scan) {
    s.size <= SIZE_MAX && (s.phase.Data? ==> s.size > 0)
  }

  lemma {:induction false} StepSane(s: Scan, c: byte)
    requires Sane(s)
    ensures Sane(Step(s, c))
  {
  }

  lemma {:induction false} RunSane(s: Scan, data: Bytes, n: nat)
    requires Sane(s) && n <= |data|
    ensures Sane(Fold(Stepper(), s, data, 0, n))
    decreases n
  {
    if n > 0 {
      RunSane(s, data, n - 1);
      StepSane(Fold(Stepper(), s, data, 0, n - 1), data[n - 1]);
    }
  }

  /** Done and Error are final. */
  lemma {:induction false} RunFinal(s: Scan, data: Bytes, lo: nat, hi: nat)
    requires s.phase.Done? || s.phase.Error?
    requires lo <= hi <= |data|
    ensures Fold(Stepper(), s, data, lo, hi) == s
  {
    FoldStuck(Stepper(), s, data, lo, hi);
  }

  /** The octets of a chunk, however many of them there are. */
  lemma {:induction false} RunData(n: nat, data: Bytes, lo: nat, hi: nat)
    requires lo <= hi <= |data| && hi - lo <= n && n > 0
    ensures Fold(Stepper(), Scan(Data, n), data, lo, hi) ==
            if hi - lo == n then Scan(DataCr, 0) else Scan(Data, n - (hi - lo))
    decreases hi
  {
    if lo < hi {
      RunData(n, data, lo, hi - 1);
    }
  }

  /** The scanner as part of a connection: fed with each stretch of the body once. */
  class Scanner {
    var phase: Phase
    var size: nat

    ghost function State(): Scan
      reads this
    {
      Scan(phase, size)
    }

    constructor ()
      ensures State() == START
    {
      phase, size := SizeStart, 0;
    }

    /** One octet outside of chunk data. */
    method TakeOctet(c: byte)
      requires Sane(State()) && !phase.Data?
      modifies this
      ensures State() == Step(old(State()), c)
    {
      match phase
      case SizeStart =>
        if IsHex(c) {
          size, phase := HexDigit(c), Size;
        } else {
          phase := Error;
        }
      case Size =>
        if IsHex(c) {
          if size > (SIZE_MAX - HexDigit(c)) / 16 {
            phase := Error;
          } else {
            size := size * 16 + HexDigit(c);
          }
        } else if StartsExt(c) {
          phase := Ext;
        } else if c == CR {
          phase := SizeLf;
        } else {
          phase := Error;
        }
      case Ext =>
        if c == CR {
          phase := SizeLf;
        } else if c == LF {
          phase := Error;
        }
      case SizeLf =>
        phase := if c != LF then Error else if size == 0 then Trailer else Data;
      case DataCr =>
        phase := if c == CR then DataLf else Error;
      case DataLf =>
        if c == LF {
          phase, size := SizeStart, 0;
        } else {
          phase := Error;
        }
      case Trailer =>
        phase := if c == CR then TrailerLf else if c == LF then Error else TrailerLine;
      case TrailerLf =>
        phase := if c == LF then Done else Error;
      case TrailerLine =>
        if c == CR {
          phase := TrailerLineLf;
        } else if c == LF {
          phase := Error;
        }
      case TrailerLineLf =>
        phase := if c == LF then Trailer else Error;
      case _ =>
    }

    /** The octets of a chunk's data, as far as they are there. */
    method SkipData(data: Bytes, i: nat) returns (j: nat)
      requires Sane(State()) && phase.Data? && i < |data|
      modifies this
      ensures Sane(State()) && i < j <= |data| && State() == Fold(Stepper(), old(State()), data, i, j)
    {
      var remaining := |data| - i;
      var skip := if size < remaining then size else remaining;
      RunData(size, data, i, i + skip);
      j := i + skip;
      size := size - skip;
      if size == 0 {
        phase := DataCr;
      }
    }

    method TakeOne(data: Bytes, i: nat) returns (j: nat)
      requires Sane(State()) && !phase.Data? && i < |data|
      modifies this
      ensures Sane(State()) && j == i + 1 && State() == Fold(Stepper(), old(State()), data, i, j)
    {
      StepSane(State(), data[i]);
      TakeOctet(data[i]);
      j := i + 1;
    }

    /** A stretch of the body, cut anywhere; chunk data is skipped in one go. */
    method Follow(data: Bytes) returns (done: bool)
      requires Sane(State())
      modifies this
      ensures Sane(State()) && State() == Run(old(State()), data)
      ensures done <==> phase.Done?
    {
      var i := 0;
      ghost var s := State();
      while i < |data| && !phase.Done? && !phase.Error?
        invariant 0 <= i <= |data| && Sane(State())
        invariant State() == Fold(Stepper(), s, data, 0, i)
        decreases |data| - i
      {
        ghost var j := i;
        if phase.Data? {
          i := SkipData(data, i);
        } else {
          i := TakeOne(data, i);
        }
        FoldSplits(Stepper(), s, data, 0, j, i);
      }
      if i < |data| {
        RunFinal(State(), data, i, |data|);
        FoldSplits(Stepper(), s, data, 0, i, |data|);
      }
      done := phase.Done?;
    }
  }
}
