/** The receiving end of a websocket connection, frame by frame. */
module WsReceiver {
  import opened Bytes
  import opened WsFrames

  /** A frame as it stands in the input buffer. */
  datatype RawFrame = RawFrame(fin: bool, opcode: Opcode, masked: bool, mask: Bytes, payload: Bytes)

  function Pow2(n: nat): nat {
    if n == 0 then 1 else 2 * Pow2(n - 1)
  }

  /** Exclusive or of the last `n` bits. */
  function XorBits(a: nat, b: nat, n: nat): (r: nat)
    ensures r < Pow2(n)
  {
    if n == 0 then 0 else (a % 2 + b % 2) % 2 + 2 * XorBits(a / 2, b / 2, n - 1)
  }

  lemma {:induction false} Halves(low: nat, high: nat)
    requires low < 2
    ensures (low + 2 * high) % 2 == low && (low + 2 * high) / 2 == high
  {
  }

  /** The lowest bit, twice. */
  lemma {:induction false} LowBit(p: nat, q: nat)
    requires p < 2 && q < 2
    ensures ((p + q) % 2 + q) % 2 == p
  {
  }

  lemma {:induction false} Unfold(a: nat, b: nat, n: nat, low: nat, high: nat)
    requires n > 0 && low < 2 && a == low + 2 * high
    ensures XorBits(a, b, n) == (low + b % 2) % 2 + 2 * XorBits(high, b / 2, n - 1)
  {
    Halves(low, high);
  }

  lemma {:induction false} XorBitsTwice(a: nat, b: nat, n: nat, x: nat)
    requires a < Pow2(n) && x == XorBits(a, b, n)
    ensures XorBits(x, b, n) == a
    decreases n
  {
    if n > 0 {
      var p, q, high := a % 2, b % 2, XorBits(a / 2, b / 2, n - 1);
      XorBitsTwice(a / 2, b / 2, n - 1, high);
      LowBit(p, q);
      Unfold(x, b, n, (p + q) % 2, high);
    }
  }

  lemma {:induction false} Pow2Eight()
    ensures Pow2(8) == 256
  {
    assert Pow2(4) == 16;
  }

  function Xor(a: byte, b: byte): byte {
    Pow2Eight();
    XorBits(a as nat, b as nat, 8) as byte
  }

  lemma {:induction false} XorTwice(a: byte, b: byte)
    ensures Xor(Xor(a, b), b) == a
  {
    Pow2Eight();
    XorBitsTwice(a as nat, b as nat, 8, XorBits(a as nat, b as nat, 8));
  }

  /** The bit `k` of a number, the lowest being 0. */
  predicate Bit(x: nat, k: nat) {
    if k == 0 then x % 2 == 1 else Bit(x / 2, k - 1)
  }

  lemma {:induction false} XorBitsBit(a: nat, b: nat, n: nat, k: nat)
    requires k < n
    ensures Bit(XorBits(a, b, n), k) <==> Bit(a, k) != Bit(b, k)
  {
    Halves((a % 2 + b % 2) % 2, XorBits(a / 2, b / 2, n - 1));
    if k > 0 {
      XorBitsBit(a / 2, b / 2, n - 1, k - 1);
    }
  }

  /** Numbers below 2^n are known by their last `n` bits. */
  lemma {:induction false} SameBits(x: nat, y: nat, n: nat)
    requires x < Pow2(n) && y < Pow2(n) && forall k :: 0 <= k < n ==> Bit(x, k) == Bit(y, k)
    ensures x == y
    decreases n
  {
    if n > 0 {
      forall k | 0 <= k < n - 1 ensures Bit(x / 2, k) == Bit(y / 2, k) {
        assert Bit(x, k + 1) == Bit(y, k + 1);
      }
      SameBits(x / 2, y / 2, n - 1);
      assert Bit(x, 0) == Bit(y, 0);
    }
  }

  /** Each of the eight bits of `x` is set exactly if it is in one of `a` and `b` and not in
      the other. */
  ghost predicate BitsDiffer(a: nat, b: nat, x: nat) {
    forall k :: 0 <= k < 8 ==> (Bit(x, k) <==> Bit(a, k) != Bit(b, k))
  }

  lemma {:induction false} XorExact(a: byte, b: byte, x: byte)
    ensures BitsDiffer(a as nat, b as nat, x as nat) <==> x == Xor(a, b)
  {
    Pow2Eight();
    var m, n, r := a as nat, b as nat, Xor(a, b) as nat;
    forall k | 0 <= k < 8 ensures Bit(r, k) <==> Bit(m, k) != Bit(n, k) {
      XorBitsBit(m, n, 8, k);
    }
    if BitsDiffer(m, n, x as nat) {
      SameBits(x as nat, r, 8);
    }
  }

  /** The text under a mask: octet by octet and bit by bit, the four octets of the mask over
      and over again. */
  ghost predicate IsUnmasked(payload: Bytes, mask: Bytes, text: Bytes)
    requires |mask| == 4
  {
    && |text| == |payload|
    && forall i :: 0 <= i < |payload| ==> BitsDiffer(payload[i] as nat, mask[i % 4] as nat, text[i] as nat)
  }

  /** There is exactly one. */
  lemma {:induction false} UnmaskedExact(payload: Bytes, mask: Bytes, text: Bytes)
    requires |mask| == 4
    ensures IsUnmasked(payload, mask, text) <==> text == Unmasked(payload, mask)
  {
    var r := Unmasked(payload, mask);
    forall i | 0 <= i < |payload| ensures BitsDiffer(payload[i] as nat, mask[i % 4] as nat, r[i] as nat) {
      XorExact(payload[i], mask[i % 4], r[i]);
    }
    if IsUnmasked(payload, mask, text) {
      forall i | 0 <= i < |payload| ensures text[i] == r[i] {
        XorExact(payload[i], mask[i % 4], text[i]);
      }
    }
  }

  function Unmasked(payload: Bytes, mask: Bytes): Bytes
    requires |mask| == 4
  {
    seq(|payload|, i requires 0 <= i < |payload| => Xor(payload[i], mask[i % 4]))
  }

  /** Masking is its own inverse: what the client masked is what is delivered. */
  lemma {:induction false} UnmaskedTwice(payload: Bytes, mask: Bytes)
    requires |mask| == 4
    ensures Unmasked(Unmasked(payload, mask), mask) == payload
  {
    var r := Unmasked(Unmasked(payload, mask), mask);
    forall i | 0 <= i < |payload| ensures r[i] == payload[i] {
      XorTwice(payload[i], mask[i % 4]);
    }
  }

  method Unmask(payload: Bytes, mask: Bytes) returns (r: Bytes)
    requires |mask| == 4
    ensures r == Unmasked(payload, mask) && IsUnmasked(payload, mask, r)
  {
    r := [];
    for i := 0 to |payload|
      invariant |r| == i && forall j :: 0 <= j < i ==> r[j] == Xor(payload[j], mask[j % 4])
    {
      r := r + [Xor(payload[i], mask[i % 4])];
    }
    UnmaskedExact(payload, mask, r);
  }

  /** The kept fragments copied one behind the other. */
  method Collect(fragments: seq<Bytes>) returns (r: Bytes)
    ensures r == Joined(fragments)
  {
    r := [];
    var i := 0;
    while i < |fragments|
      invariant i <= |fragments| && r == Joined(fragments[..i])
    {
      assert fragments[..i + 1] == fragments[..i] + [fragments[i]];
      JoinedMore(fragments[..i], fragments[i]);
      r := r + fragments[i];
      i := i + 1;
    }
    assert fragments[..i] == fragments;
  }

  function FrameOf(raw: RawFrame): Frame
    requires |raw.mask| == 4
  {
    Frame(raw.fin, raw.opcode, Unmasked(raw.payload, raw.mask))
  }

  class Receiver {
    const cfg: Config
    var startOpcode: Option<Opcode>
    var fragments: seq<Bytes>
    var fragmentsLength: nat
    var fragmentCount: nat
    var inbox: seq<Message>
    var pongs: seq<Bytes>
    var fate: Fate

    ghost function View(): State
      reads this
    {
      State(if startOpcode.None? then Idle else Open(startOpcode.value, fragments, fragmentsLength, fragmentCount),
            inbox, pongs, fate)
    }

    ghost predicate Valid()
      reads this
    {
      (startOpcode.None? ==> fragments == [] && fragmentsLength == 0 && fragmentCount == 0) && Bounded(cfg, View())
    }

    constructor (cfg: Config)
      ensures Valid() && View() == INITIAL && this.cfg == cfg
    {
      this.cfg := cfg;
      startOpcode, fragments, fragmentsLength, fragmentCount := None, [], 0, 0;
      inbox, pongs, fate := [], [], Alive;
    }

    /** One complete frame: it is taken with the text under its mask. */
    method OnFrame(raw: RawFrame) returns (ghost text: Bytes)
      requires Valid() && |raw.mask| == 4
      modifies this
      ensures Valid() && IsUnmasked(raw.payload, raw.mask, text)
      ensures View() == if !old(fate).Alive? || raw.masked then Step(cfg, old(View()), Frame(raw.fin, raw.opcode, text))
                        else old(View()).(fate := Protocol)
    {
      text := Unmasked(raw.payload, raw.mask);
      UnmaskedExact(raw.payload, raw.mask, text);
      StepBounded(cfg, View(), FrameOf(raw));
      if !fate.Alive? {
        return;
      }
      if !raw.masked {
        fate := Protocol;
      } else if |raw.payload| > cfg.max {
        fate := TooBig;
      } else {
        match raw.opcode
        case Text => OnStart(raw);
        case Binary => OnStart(raw);
        case Continue => OnContinue(raw);
        case Reserved => fate := Protocol;
        case Close =>
          fate := if !raw.fin || |raw.payload| > MAX_CONTROL then Protocol else Asked;
        case Pong =>
          if !raw.fin || |raw.payload| > MAX_CONTROL { fate := Protocol; }
        case Ping =>
          if !raw.fin || |raw.payload| > MAX_CONTROL {
            fate := Protocol;
          } else {
            var data := Unmask(raw.payload, raw.mask);
            pongs := pongs + [data];
          }
      }
    }

    /** A text or binary frame: a whole message, or the first fragment of one. */
    method OnStart(raw: RawFrame)
      requires Valid() && fate.Alive? && |raw.mask| == 4 && |raw.payload| <= cfg.max && (raw.opcode.Text? || raw.opcode.Binary?)
      modifies `startOpcode, `fragments, `fragmentsLength, `fragmentCount, `inbox, `fate
      ensures Valid() && View() == Step(cfg, old(View()), FrameOf(raw))
    {
      StepBounded(cfg, View(), FrameOf(raw));
      if startOpcode.Some? {
        fate := Protocol;
      } else if raw.fin {
        if raw.opcode.Text? && |raw.payload| >= cfg.max {
          fate := Plain;
        } else {
          var data := Unmask(raw.payload, raw.mask);
          if raw.opcode.Text? && !cfg.utf8(data) {
            fate := NotUtf8;
          } else {
            inbox := inbox + [Message(raw.opcode.Binary?, data)];
          }
        }
      } else if |raw.payload| >= cfg.max {
        fate := TooBig;
      } else {
        var data := Unmask(raw.payload, raw.mask);
        fragments := fragments + [data];
        assert fragments == [data];
        startOpcode, fragmentsLength, fragmentCount := Some(raw.opcode), |raw.payload|, 1;
      }
    }

    /** A continuation frame. */
    method OnContinue(raw: RawFrame)
      requires Valid() && fate.Alive? && |raw.mask| == 4 && |raw.payload| <= cfg.max && raw.opcode.Continue?
      modifies `startOpcode, `fragments, `fragmentsLength, `fragmentCount, `inbox, `fate
      ensures Valid() && View() == Step(cfg, old(View()), FrameOf(raw))
    {
      StepBounded(cfg, View(), FrameOf(raw));
      if startOpcode.None? {
        fate := Protocol;
      } else if |raw.payload| >= cfg.max - fragmentsLength {
        fate := TooBig;
      } else {
        fragmentCount := fragmentCount + 1;
        if fragmentCount > MAX_FRAGMENTS {
          fate := TooBig;
        } else {
          if |raw.payload| > 0 {
            var data := Unmask(raw.payload, raw.mask);
            fragments, fragmentsLength := fragments + [data], fragmentsLength + |raw.payload|;
          }
          if raw.fin {
            Deliver();
          }
        }
      }
    }

    /** The last fragment is there. */
    method Deliver()
      requires startOpcode.Some?
      modifies `startOpcode, `fragments, `fragmentsLength, `fragmentCount, `inbox, `fate
      ensures View() == Finish(cfg, old(View())) && startOpcode.None?
      ensures fragments == [] && fragmentsLength == 0 && fragmentCount == 0
    {
      var data := Collect(fragments);
      if startOpcode.value.Text? && !cfg.utf8(data) {
        fate := NotUtf8;
      } else {
        inbox := inbox + [Message(startOpcode.value.Binary?, data)];
      }
      startOpcode, fragments, fragmentsLength, fragmentCount := None, [], 0, 0;
    }
  }
}
