/** Payload exactness of the multipart receiver: a part ends at the first real
    delimiter, nothing before it is lost or kept back, and a rendered list of
    parts comes out again. */
module MultipartExactness {
  import opened Bytes
  import opened Sequences
  import opened NeedleScan
  import opened Folding
  import opened MultipartMachine
  import opened MultipartProtocol
  import opened MultipartSplit

  /** The header parser ends the boundary at the first CR. */
  ghost predicate NoCR(w: Bytes) {
    forall i :: 0 <= i < |w| ==> w[i] != CR
  }

  /** A real delimiter: the boundary line start, then CRLF or two dashes. */
  ghost predicate DelimiterAt(cfg: Config, t: Bytes, i: int) {
    var k := i + |cfg.Delim()|;
    && OccursAt(cfg.Delim(), t, i)
    && k + 2 <= |t|
    && (t[k..k + 2] == CRLF || t[k..k + 2] == DASHES)
  }

  ghost predicate InData(cfg: Config, c: Core) {
    c.phase.PartData? && c.hold <= cfg.Delim() && |c.hold| < |cfg.Delim()|
  }

  /** The state after the payload octets `e`, with `h` held back. */
  function Held(cfg: Config, c: Core, e: Bytes, h: Bytes): Core {
    c.(book := Pass(cfg, c.book, e), hold := h)
  }

  /** The state after the payload octets `e` and a boundary. */
  function AtBoundary(cfg: Config, c: Core, e: Bytes): Core {
    c.(book := Pass(cfg, c.book, e), hold := [], inData := true, phase := DelimCheck)
  }

  // ----- inside the payload -----

  /** One more octet, from the closed form for the octets before. */
  lemma {:induction false} DataStepExact(cfg: Config, c: Core, t: Bytes, b: byte)
    ensures var u := t + [b];
            DataStep(cfg, Held(cfg, c, Sure(cfg.Delim(), t), Settle(cfg.Delim(), t)), b) ==
              if |Settle(cfg.Delim(), u)| == |cfg.Delim()| then AtBoundary(cfg, c, Sure(cfg.Delim(), u))
              else Held(cfg, c, Sure(cfg.Delim(), u), Settle(cfg.Delim(), u))
  {
    var delim := cfg.Delim();
    var h := Settle(delim, t);
    SettleExtends(delim, t, [b]);
    SureExtends(delim, t, [b]);
    PassTwice(cfg, c.book, Sure(delim, t), Sure(delim, h + [b]));
  }

  lemma {:induction false} DataRunMore(cfg: Config, c: Core, w: Bytes, n: nat)
    requires 0 < n <= |w| && Run(cfg, c, w, 0, n - 1).phase.PartData?
    ensures Run(cfg, c, w, 0, n) == DataStep(cfg, Run(cfg, c, w, 0, n - 1), w[n - 1])
  {
  }

  /** Closed form of a run within the payload as long as no boundary is complete. */
  lemma {:induction false} DataRun(cfg: Config, c: Core, w: Bytes, n: nat)
    requires InData(cfg, c) && n <= |w|
    requires Unfound(cfg.Delim(), c.hold + w[..n], |c.hold|)
    ensures var t := c.hold + w[..n];
            Run(cfg, c, w, 0, n) == Held(cfg, c, Sure(cfg.Delim(), t), Settle(cfg.Delim(), t))
    decreases n
  {
    var delim := cfg.Delim();
    var t := c.hold + w[..n];
    if n == 0 {
      assert t == c.hold;
      assert Settle(delim, t) == t && Sure(delim, t) == [];
    } else {
      var s := c.hold + w[..n - 1];
      assert t == s + [w[n - 1]];
      UnfoundLast(delim, s, w[n - 1], |c.hold|);
      DataRun(cfg, c, w, n - 1);
      DataStepExact(cfg, c, s, w[n - 1]);
      DataRunMore(cfg, c, w, n);
      SettleFull(delim, t);
    }
  }

  lemma {:induction false} UnfoundLast(delim: Bytes, s: Bytes, b: byte, from: nat)
    requires from <= |s| && Unfound(delim, s + [b], from)
    ensures Unfound(delim, s, from) && !EndsWith(s + [b], delim)
  {
    var t := s + [b];
    UnfoundPrefix(delim, t, from, |s|);
    assert t[..|s|] == s && t[..|t|] == t;
  }

  /** Up to the octet that completes the first boundary. */
  lemma {:induction false} DataFind(cfg: Config, c: Core, w: Bytes, e: Bytes)
    requires InData(cfg, c) && w != [] && c.hold + w == e + cfg.Delim()
    requires Unfound(cfg.Delim(), c.hold + w[..|w| - 1], |c.hold|)
    ensures RunAll(cfg, c, w) == AtBoundary(cfg, c, e)
  {
    var delim := cfg.Delim();
    var n := |w|;
    var s := c.hold + w[..n - 1];
    var t := c.hold + w;
    assert t == s + [w[n - 1]];
    DataRun(cfg, c, w, n - 1);
    DataStepExact(cfg, c, s, w[n - 1]);
    DataRunMore(cfg, c, w, n);
    assert |Settle(delim, t)| == |delim| by {
      SettleFull(delim, t);
    }
    assert Sure(delim, t) == e;
  }

  // ----- up to the first real delimiter -----

  /** The first position behind `from` where the text so far ends with the needle. */
  lemma {:induction false} FirstFind(needle: Bytes, t: Bytes, from: nat, m: nat) returns (k: nat)
    requires from < m <= |t| && EndsWith(t[..m], needle)
    ensures from < k <= m && EndsWith(t[..k], needle)
    ensures Unfound(needle, t[..k - 1], from)
  {
    k := from + 1;
    while !EndsWith(t[..k], needle)
      invariant from < k <= m
      invariant forall j :: from < j < k ==> !EndsWith(t[..j], needle)
      decreases m - k
    {
      k := k + 1;
    }
    UnfoundPrefix(needle, t, from, k - 1);
  }

  lemma {:induction false} InsideBoundary(cfg: Config, t: Bytes, i: nat, k: nat)
    requires NoCR(cfg.boundary) && OccursAt(cfg.Delim(), t, i) && 0 < k < |cfg.Delim()|
    ensures t[i + k] != CR
  {
    var delim := cfg.Delim();
    assert t[i..i + |delim|][k] == t[i + k];
    assert delim[k] == if k == 1 then LF else cfg.boundary[k - 2];
  }

  /** Without a CR in the boundary, a boundary cannot start inside another one. */
  lemma {:induction false} NoOverlap(cfg: Config, t: Bytes, i: nat, j: nat)
    requires NoCR(cfg.boundary) && i < j
    requires OccursAt(cfg.Delim(), t, i) && OccursAt(cfg.Delim(), t, j)
    ensures i + |cfg.Delim()| <= j
  {
    assert t[j] == CR by {
      assert t[j..j + |cfg.Delim()|][0] == t[j];
    }
    if j < i + |cfg.Delim()| {
      InsideBoundary(cfg, t, i, j - i);
    }
  }

  lemma {:induction false} RunTwo(cfg: Config, c: Core, x: byte, y: byte)
    requires c.phase.DelimCheck? && c.hold == []
    ensures RunAll(cfg, c, [x, y]) == Resolve(cfg, c.(hold := [x]), [x, y])
  {
    assert [] + [x] == [x] && [x] + [y] == [x, y];
    FoldConcat(Stepper(cfg), c, [x], [y]);
    FoldOne(Stepper(cfg), c, x);
    assert Step(cfg, c, x) == c.(hold := [x]);
    FoldOne(Stepper(cfg), c.(hold := [x]), y);
  }

  /** In front of the first part such a boundary is none; the search goes on behind it. */
  lemma {:induction false} FalseBoundary(cfg: Config, c: Core, x: byte, y: byte)
    requires c.phase.DelimCheck? && !c.inData && c.hold == [] && [x, y] != CRLF && [x, y] != DASHES
    ensures RunAll(cfg, c, [x, y]) == c.(phase := Preamble)
  {
    RunTwo(cfg, c, x, y);
  }

  /** A boundary followed by anything but CRLF or two dashes is payload; the two
      octets are looked at again as the possible start of the next boundary. */
  lemma {:induction false} FalseDelimiter(cfg: Config, c: Core, e: Bytes, x: byte, y: byte)
    requires c.phase.PartData? && [x, y] != CRLF && [x, y] != DASHES
    ensures var delim := cfg.Delim();
            RunAll(cfg, AtBoundary(cfg, c, e), [x, y]) ==
              Held(cfg, c, e + delim + Sure(delim, [x, y]), Settle(delim, [x, y])).(inData := true)
  {
    var delim := cfg.Delim();
    RunTwo(cfg, AtBoundary(cfg, c, e), x, y);
    PassTwice(cfg, c.book, e, delim);
    PassTwice(cfg, c.book, e + delim, Sure(delim, [x, y]));
  }

  ghost predicate NoDelimiterBefore(cfg: Config, t: Bytes, n: nat) {
    forall i :: 0 <= i < n ==> !DelimiterAt(cfg, t, i)
  }

  lemma {:induction false} DelimitersShift(cfg: Config, t: Bytes, m: nat, n: nat)
    requires m <= n <= |t| && NoDelimiterBefore(cfg, t, n)
    ensures NoDelimiterBefore(cfg, t[m..], n - m)
  {
    forall i | 0 <= i < n - m ensures !DelimiterAt(cfg, t[m..], i) {
      assert !DelimiterAt(cfg, t, m + i);
      ShiftDelimiter(cfg, t, m, i);
    }
  }

  lemma {:induction false} ShiftDelimiter(cfg: Config, t: Bytes, m: nat, i: nat)
    requires m <= |t|
    ensures DelimiterAt(cfg, t[m..], i) <==> DelimiterAt(cfg, t, m + i)
  {
    var k := i + |cfg.Delim()|;
    if k <= |t[m..]| {
      SliceOfSuffix(t, m, i, k);
    }
    if k + 2 <= |t[m..]| {
      SliceOfSuffix(t, m, k, k + 2);
    }
  }

  /** The part is closed with the payload `d`, by the delimiter that ends in `x`. */
  function Ended(cfg: Config, c: Core, d: Bytes, x: Bytes): Core {
    c.(hold := [], inData := true, phase := if x == DASHES then Epilogue else AfterBoundary,
       book := EndPart(cfg, Pass(cfg, c.book, d), true))
  }

  lemma {:induction false} RealDelimiter(cfg: Config, c: Core, e: Bytes, x: Bytes)
    requires c.phase.PartData? && (x == CRLF || x == DASHES)
    ensures RunAll(cfg, AtBoundary(cfg, c, e), x) == Ended(cfg, c, e, x)
  {
    assert x == [x[0], x[1]];
    RunTwo(cfg, AtBoundary(cfg, c, e), x[0], x[1]);
  }

  /** The payload and its delimiter cut at the first boundary: `e`, the boundary,
      the two octets `z` behind it and the rest. */
  lemma {:induction false} CutAtFirst(delim: Bytes, hold: Bytes, w: Bytes, d: Bytes, x: Bytes)
      returns (e: Bytes, w1: Bytes, z: Bytes, w2: Bytes)
    requires hold + w == d + delim + x && |hold| < |d| + |delim| && |x| == 2 && |hold| < |delim|
    ensures w == w1 + z + w2 && w1 != [] && |z| == 2
    ensures hold + w1 == e + delim && Unfound(delim, hold + w1[..|w1| - 1], |hold|)
    ensures |e| <= |d| && e == d[..|e|]
    ensures OccursAt(delim, hold + w, |e|)
  {
    var t := hold + w;
    var u := d + delim;
    assert t[..|u|] == u && EndsWith(u, delim);
    var k := FirstFind(delim, t, |hold|, |u|);
    var n := k - |hold|;
    w1, z, w2 := w[..n], w[n..n + 2], w[n + 2..];
    e := t[..k - |delim|];
    assert t[..k] == hold + w1;
    assert t[..k - 1] == hold + w1[..n - 1];
    assert t[..k] == e + delim;
    OccursEnds(delim, t, k);
  }

  /** The input up to the first boundary and the two octets behind it. */
  lemma {:induction false} ToFirstBoundary(cfg: Config, c: Core, w: Bytes, e: Bytes, z: Bytes)
    requires InData(cfg, c) && w != [] && c.hold + w == e + cfg.Delim() && |z| == 2
    requires Unfound(cfg.Delim(), c.hold + w[..|w| - 1], |c.hold|)
    ensures var delim := cfg.Delim();
            RunAll(cfg, c, w + z) ==
              if z == CRLF || z == DASHES then Ended(cfg, c, e, z)
              else Held(cfg, c, e + delim + Sure(delim, z), Settle(delim, z)).(inData := true)
  {
    DataFind(cfg, c, w, e);
    FoldConcat(Stepper(cfg), c, w, z);
    assert z == [z[0], z[1]];
    if z == CRLF || z == DASHES {
      RealDelimiter(cfg, c, e, z);
    } else {
      FalseDelimiter(cfg, c, e, z[0], z[1]);
    }
  }

  lemma {:induction false} EndLater(cfg: Config, c: Core, w: Bytes, f: Bytes, v: Bytes, d: Bytes, x: Bytes, h: Bytes)
    requires RunAll(cfg, c, w) == Held(cfg, c, f, h).(inData := true)
    requires RunAll(cfg, Held(cfg, c, f, h).(inData := true), v) == Ended(cfg, Held(cfg, c, f, h).(inData := true), d, x)
    ensures RunAll(cfg, c, w + v) == Ended(cfg, c, f + d, x)
  {
    FoldConcat(Stepper(cfg), c, w, v);
    PassTwice(cfg, c.book, f, d);
  }

  /** A part ends at its first real delimiter, with exactly the octets before it
      as payload - whatever boundaries that are none it contains. */
  lemma {:induction false} DataExact(cfg: Config, c: Core, w: Bytes, d: Bytes, x: Bytes)
    requires NoCR(cfg.boundary) && InData(cfg, c) && (x == CRLF || x == DASHES)
    requires c.hold + w == d + cfg.Delim() + x && |c.hold| < |d| + |cfg.Delim()|
    requires NoDelimiterBefore(cfg, c.hold + w, |d|)
    ensures RunAll(cfg, c, w) == Ended(cfg, c, d, x)
    decreases |w|
  {
    var delim := cfg.Delim();
    var t := c.hold + w;
    var e, w1, z, w2 := CutAtFirst(delim, c.hold, w, d, x);
    assert t == (c.hold + w1) + z + w2;
    ToFirstBoundary(cfg, c, w1, e, z);
    if |e| == |d| {
      assert w2 == [] && z == x && e == d;
      assert w == w1 + z;
    } else {
      FirstIsFalse(cfg, t, e, z, w2, d, x);
      LookAgain(cfg, t, e, z, w2, d, x);
      var f := e + delim + Sure(delim, z);
      var next := Held(cfg, c, f, Settle(delim, z)).(inData := true);
      DataExact(cfg, next, w2, d[|f|..], x);
      EndLater(cfg, c, w1 + z, f, w2, d[|f|..], x, Settle(delim, z));
    }
  }

  /** A boundary before the end of the payload lies within it and is none. */
  lemma {:induction false} FirstIsFalse(cfg: Config, t: Bytes, e: Bytes, z: Bytes, w: Bytes, d: Bytes, x: Bytes)
    requires NoCR(cfg.boundary) && |z| == |x| == 2 && |e| < |d|
    requires t == e + cfg.Delim() + z + w && t == d + cfg.Delim() + x
    requires NoDelimiterBefore(cfg, t, |d|)
    ensures |e| + |cfg.Delim()| <= |d|
    ensures z != CRLF && z != DASHES
  {
    var delim := cfg.Delim();
    var k := |e| + |delim|;
    assert t[|e|..k] == delim;
    assert t[|d|..|d| + |delim|] == delim;
    NoOverlap(cfg, t, |e|, |d|);
    assert !DelimiterAt(cfg, t, |e|);
    assert t[k..k + 2] == z;
  }

  /** What is held after a boundary that is none, with the rest of the input, is
      the rest of the payload and its delimiter. */
  lemma {:induction false} LookAgain(cfg: Config, t: Bytes, e: Bytes, z: Bytes, w: Bytes, d: Bytes, x: Bytes)
    requires |z| == |x| == 2 && |e| + |cfg.Delim()| <= |d| && z != CRLF
    requires t == e + cfg.Delim() + z + w && t == d + cfg.Delim() + x
    requires NoDelimiterBefore(cfg, t, |d|)
    ensures var delim := cfg.Delim();
            var h := Settle(delim, z);
            var f := e + delim + Sure(delim, z);
            && |f| <= |d| && f + d[|f|..] == d
            && h + w == d[|f|..] + delim + x
            && NoDelimiterBefore(cfg, h + w, |d[|f|..]|)
  {
    var delim := cfg.Delim();
    var h, s := Settle(delim, z), Sure(delim, z);
    var f := e + delim + s;
    SureAndHeld(delim, z);
    Rejoin(e + delim, s, h, w);
    Between(e + delim, z, w);
    HoldIsLate(cfg, z, d, x, |e| + |delim|);
    Concat(d, delim, x);
    SplitAt(t, f, h + w, d, delim + x);
    Concat(d[|f|..], delim, x);
    DelimitersShift(cfg, t, |f|, |d|);
    Behind(f, h + w);
  }

  lemma {:induction false} SplitAt(t: Bytes, f: Bytes, g: Bytes, d: Bytes, y: Bytes)
    requires t == f + g && t == d + y && |f| <= |d|
    ensures f + d[|f|..] == d && g == d[|f|..] + y
  {
    assert f == t[..|f|] == d[..|f|];
    assert g == t[|f|..];
  }

  /** The octets looked at again never reach past the start of the real delimiter. */
  lemma {:induction false} HoldIsLate(cfg: Config, z: Bytes, d: Bytes, x: Bytes, k: nat)
    requires |z| == |x| == 2 && k <= |d|
    requires z == (d + cfg.Delim() + x)[k..k + 2] && z != CRLF
    ensures k + |Sure(cfg.Delim(), z)| <= |d|
  {
    var delim := cfg.Delim();
    var t := d + delim + x;
    assert t[|d|] == CR && t[|d| + 1] == LF;
    assert z == [t[k], t[k + 1]];
    if k + 1 == |d| {
      assert z[1..] == [CR] <= delim;
      if Settle(delim, z) == [] {
        SettleLongest(delim, z, 1);
      }
    }
  }

  // ----- while no real delimiter has come -----

  /** What the receiver holds back inside a part. */
  function Pending(cfg: Config, c: Core): Bytes {
    if c.phase.DelimCheck? then cfg.Delim() + c.hold else c.hold
  }

  /** `e` was passed on, the rest of the text is held back, the part is open. */
  ghost predicate PassedOn(cfg: Config, c: Core, r: Core, t: Bytes, e: Bytes) {
    && PartOpen(r)
    && r.book == Pass(cfg, c.book, e)
    && t == e + Pending(cfg, r)
    && |Pending(cfg, r)| < |cfg.Delim()| + 2
  }

  lemma {:induction false} PassedOnLater(cfg: Config, c: Core, f: Bytes, h: Bytes, r: Core, t: Bytes, e: Bytes)
    requires PassedOn(cfg, Held(cfg, c, f, h).(inData := true), r, t, e)
    ensures PassedOn(cfg, c, r, f + t, f + e)
  {
    PassTwice(cfg, c.book, f, e);
    assert f + (e + Pending(cfg, r)) == (f + e) + Pending(cfg, r);
  }

  lemma {:induction false} JustBoundary(cfg: Config, c: Core, e: Bytes, y: Bytes)
    requires c.phase.PartData? && |y| < 2
    ensures PassedOn(cfg, c, RunAll(cfg, AtBoundary(cfg, c, e), y), e + cfg.Delim() + y, e)
  {
    var b := AtBoundary(cfg, c, e);
    if y == [] {
      assert e + cfg.Delim() + y == e + (cfg.Delim() + []);
    } else {
      assert y == [y[0]];
      FoldOne(Stepper(cfg), b, y[0]);
      assert [] + [y[0]] == y;
      assert e + cfg.Delim() + y == e + (cfg.Delim() + y);
    }
  }

  lemma {:induction false} CutAtFind(delim: Bytes, hold: Bytes, w: Bytes) returns (f: Bytes, w1: Bytes, v: Bytes)
    requires |hold| < |delim| && !Unfound(delim, hold + w, |hold|)
    ensures w == w1 + v && w1 != [] && hold + w1 == f + delim
    ensures Unfound(delim, hold + w1[..|w1| - 1], |hold|)
  {
    var t := hold + w;
    var k := SomeFind(delim, t, |hold|);
    f, w1, v := t[..k - |delim|], w[..k - |hold|], w[k - |hold|..];
    CutAt(delim, hold, w, k);
  }

  lemma {:induction false} SomeFind(delim: Bytes, t: Bytes, from: nat) returns (k: nat)
    requires from <= |t| && !Unfound(delim, t, from)
    ensures from < k <= |t| && EndsWith(t[..k], delim) && Unfound(delim, t[..k - 1], from)
  {
    var m :| from < m <= |t| && EndsWith(t[..m], delim);
    k := FirstFind(delim, t, from, m);
  }

  lemma {:induction false} CutAt(delim: Bytes, hold: Bytes, w: Bytes, k: nat)
    requires |hold| < k <= |hold + w| && EndsWith((hold + w)[..k], delim)
    ensures |delim| <= k && hold + w[..k - |hold|] == (hold + w)[..k - |delim|] + delim
    ensures (hold + w)[..k - 1] == hold + w[..k - |hold|][..k - |hold| - 1]
  {
    PrefixOfConcat(hold, w, k);
    PrefixOfConcat(hold, w, k - 1);
    EndSplit(hold + w, k, delim);
    assert w[..k - |hold|][..k - |hold| - 1] == w[..k - |hold| - 1];
  }

  lemma {:induction false} EndSplit(t: Bytes, k: nat, delim: Bytes)
    requires k <= |t| && EndsWith(t[..k], delim)
    ensures |delim| <= k && t[..k] == t[..k - |delim|] + delim
  {
    assert t[..k] == t[..k][..k - |delim|] + t[..k][k - |delim|..];
  }

  lemma {:induction false} NotDelimiter(cfg: Config, t: Bytes, f: Bytes, z: Bytes, v: Bytes)
    requires |z| == 2 && t == f + cfg.Delim() + z + v && NoDelimiterBefore(cfg, t, |t|)
    ensures z != CRLF && z != DASHES
    ensures var h := Settle(cfg.Delim(), z);
            var g := f + cfg.Delim() + Sure(cfg.Delim(), z);
            t == g + (h + v) && NoDelimiterBefore(cfg, h + v, |h + v|)
  {
    var delim := cfg.Delim();
    var k := |f| + |delim|;
    assert t[|f|..k] == delim && t[k..k + 2] == z;
    assert !DelimiterAt(cfg, t, |f|);
    var h, s := Settle(delim, z), Sure(delim, z);
    var g := f + delim + s;
    SureAndHeld(delim, z);
    Rejoin(f + delim, s, h, v);
    DelimitersShift(cfg, t, |g|, |t|);
    Behind(g, h + v);
  }

  /** No octet is lost or made up: as long as no real delimiter is complete, the
      payload passed on and the octets held back are the input, and no more is held back
      than could still become a delimiter. */
  lemma {:induction false} DataConserved(cfg: Config, c: Core, w: Bytes) returns (e: Bytes)
    requires InData(cfg, c)
    requires NoDelimiterBefore(cfg, c.hold + w, |c.hold + w|)
    ensures PassedOn(cfg, c, RunAll(cfg, c, w), c.hold + w, e)
    decreases |w|
  {
    var delim := cfg.Delim();
    var t := c.hold + w;
    if Unfound(delim, t, |c.hold|) {
      assert w[..|w|] == w;
      e := Sure(delim, t);
      DataRun(cfg, c, w, |w|);
      SureAndHeld(delim, t);
    } else {
      var f, w1, v := CutAtFind(delim, c.hold, w);
      assert t == f + delim + v;
      if |v| < 2 {
        e := f;
        DataFind(cfg, c, w1, f);
        FoldConcat(Stepper(cfg), c, w1, v);
        JustBoundary(cfg, c, f, v);
      } else {
        var z, u := v[..2], v[2..];
        assert t == f + delim + z + u;
        assert w == (w1 + z) + u;
        NotDelimiter(cfg, t, f, z, u);
        ToFirstBoundary(cfg, c, w1, f, z);
        var g, h := f + delim + Sure(delim, z), Settle(delim, z);
        var next := Held(cfg, c, g, h).(inData := true);
        var e' := DataConserved(cfg, next, u);
        FoldConcat(Stepper(cfg), c, w1 + z, u);
        PassedOnLater(cfg, c, g, h, RunAll(cfg, next, u), h + u, e');
        e := g + e';
      }
    }
  }
}
