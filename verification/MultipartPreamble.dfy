/** What comes before the first boundary: how it is skipped, and exactly when the boundary
    behind it is found although a mismatch empties the hold. */
module MultipartPreamble {
  import opened Bytes
  import opened Sequences
  import opened Folding
  import opened MultipartMachine
  import opened MultipartExactness

  /** What is held after `w`, as long as the needle is not complete. */
  function Skipped(needle: Bytes, w: Bytes): (h: Bytes)
    requires needle != []
    ensures |h| <= |needle| && |h| <= |w|
    decreases |w|
  {
    if w == [] then []
    else
      var g := Skipped(needle, w[..|w| - 1]);
      if |g| == |needle| then g else SkipHold(needle, g, w[|w| - 1])
  }

  lemma {:induction false} SkippedMore(needle: Bytes, w: Bytes, b: byte)
    requires needle != []
    ensures var g := Skipped(needle, w);
            Skipped(needle, w + [b]) == if |g| == |needle| then g else SkipHold(needle, g, b)
  {
    assert (w + [b])[..|w|] == w;
  }

  ghost predicate Skipping(cfg: Config, c: Core) {
    c.phase.Preamble? && c.hold == [] && cfg.Valid()
  }

  /** The hold is the end of the input and the start of the needle; when it is complete,
      the needle has occurred. */
  lemma {:induction false} SkippedIsEnd(needle: Bytes, w: Bytes)
    requires needle != [] && forall n :: 0 <= n < |w| ==> |Skipped(needle, w[..n])| < |needle|
    ensures Skipped(needle, w) <= needle && EndsWith(w, Skipped(needle, w))
    decreases |w|
  {
    if w != [] {
      var v, b := w[..|w| - 1], w[|w| - 1];
      var g := Skipped(needle, v);
      forall n | 0 <= n < |v| ensures |Skipped(needle, v[..n])| < |needle| {
        assert v[..n] == w[..n];
      }
      SkippedIsEnd(needle, v);
      assert w == v + [b];
      SkipHoldIsEnd(needle, v, b, g);
    }
  }

  lemma {:induction false} SkipHoldIsEnd(needle: Bytes, v: Bytes, b: byte, g: Bytes)
    requires g <= needle && |g| < |needle| && EndsWith(v, g)
    ensures var h := SkipHold(needle, g, b); h <= needle && EndsWith(v + [b], h)
  {
    if needle[|g|] == b {
      assert g + [b] == needle[..|g| + 1];
      SuffixOfConcat(v, [b], |v| - |g|);
    } else if needle[0] == b {
      assert [b] == needle[..1];
    }
  }

  /** No occurrence, no complete hold. */
  lemma {:induction false} SkippedShort(needle: Bytes, w: Bytes, n: nat)
    requires needle != [] && n <= |w| && forall i :: 0 <= i && i + |needle| <= n ==> !OccursAt(needle, w, i)
    ensures |Skipped(needle, w[..n])| < |needle|
    decreases n
  {
    if n > 0 {
      var v := w[..n];
      forall m | 0 <= m < n ensures |Skipped(needle, v[..m])| < |needle| {
        assert v[..m] == w[..m];
        SkippedShort(needle, w, m);
      }
      SkippedIsEnd(needle, v);
      if |Skipped(needle, v)| == |needle| {
        assert v[n - |needle|..] == needle;
        assert OccursAt(needle, w, n - |needle|);
      }
    }
  }

  /** The machine holds just that. */
  lemma {:induction false} PreambleRun(cfg: Config, c: Core, w: Bytes, n: nat)
    requires Skipping(cfg, c) && n <= |w| && forall m :: 0 <= m <= n ==> |Skipped(cfg.boundary, w[..m])| < |cfg.boundary|
    ensures Run(cfg, c, w, 0, n) == c.(hold := Skipped(cfg.boundary, w[..n]))
    decreases n
  {
    if n > 0 {
      PreambleRun(cfg, c, w, n - 1);
      var before := c.(hold := Skipped(cfg.boundary, w[..n - 1]));
      assert w[..n] == w[..n - 1] + [w[n - 1]];
      SkippedMore(cfg.boundary, w[..n - 1], w[n - 1]);
      assert |Skipped(cfg.boundary, w[..n])| < |cfg.boundary|;
      assert Step(cfg, before, w[n - 1]) == PreambleStep(cfg, before, w[n - 1]);
    }
  }

  /** A match that is under way at `m` and goes on there never becomes one that began at `m`. */
  lemma {:induction false} NeverBeginsAt(needle: Bytes, w: Bytes, m: nat, n: nat)
    requires needle != [] && m < n <= |w| && forall k :: 0 <= k < n ==> |Skipped(needle, w[..k])| < |needle|
    requires Skipped(needle, w[..m]) != [] && needle[|Skipped(needle, w[..m])|] == w[m]
    ensures |Skipped(needle, w[..n])| != n - m
    decreases n
  {
    assert w[..n] == w[..n - 1] + [w[n - 1]];
    SkippedMore(needle, w[..n - 1], w[n - 1]);
    assert |Skipped(needle, w[..n - 1])| < |needle|;
    if n - 1 > m {
      NeverBeginsAt(needle, w, m, n - 1);
    }
  }

  // ----- the boundary itself -----

  /** The boundary stands behind the lead, and nowhere before. */
  ghost predicate ComesFirst(boundary: Bytes, lead: Bytes) {
    forall i :: 0 <= i < |lead| ==> !OccursAt(boundary, lead + boundary, i)
  }

  /** The guard of the branch that loses it: is the first octet of the boundary taken for
      more of a match that is already under way? */
  predicate Harmless(cfg: Config, lead: Bytes)
    requires cfg.boundary != []
  {
    var h := Skipped(cfg.boundary, lead);
    0 < |h| < |cfg.boundary| ==> cfg.boundary[|h|] != DASH
  }

  lemma {:induction false} ShortBefore(boundary: Bytes, lead: Bytes, n: nat)
    requires boundary != [] && ComesFirst(boundary, lead) && n < |lead| + |boundary|
    ensures |Skipped(boundary, (lead + boundary)[..n])| < |boundary|
  {
    forall i | 0 <= i && i + |boundary| <= n ensures !OccursAt(boundary, lead + boundary, i) {
    }
    SkippedShort(boundary, lead + boundary, n);
  }

  /** From an empty hold the boundary builds up octet by octet. */
  lemma {:induction false} BoundaryRun(cfg: Config, c: Core, n: nat)
    requires Skipping(cfg, c) && n < |cfg.boundary|
    ensures Run(cfg, c, cfg.boundary, 0, n) == c.(hold := cfg.boundary[..n])
    decreases n
  {
    if n > 0 {
      BoundaryRun(cfg, c, n - 1);
      var before := c.(hold := cfg.boundary[..n - 1]);
      assert Step(cfg, before, cfg.boundary[n - 1]) == PreambleStep(cfg, before, cfg.boundary[n - 1]);
      assert cfg.boundary[..n - 1] + [cfg.boundary[n - 1]] == cfg.boundary[..n];
    }
  }

  lemma {:induction false} BoundaryFound(cfg: Config, c: Core)
    requires Skipping(cfg, c)
    ensures RunAll(cfg, c, cfg.boundary) == c.(inData := false, phase := DelimCheck)
  {
    var n := |cfg.boundary|;
    BoundaryRun(cfg, c, n - 1);
    var before := c.(hold := cfg.boundary[..n - 1]);
    assert Step(cfg, before, cfg.boundary[n - 1]) == PreambleStep(cfg, before, cfg.boundary[n - 1]);
  }

  /** A hold that does not go on with a dash is as good as none. */
  lemma {:induction false} FoundFromHold(cfg: Config, c: Core, h: Bytes)
    requires Skipping(cfg, c) && |h| < |cfg.boundary| && (h == [] || cfg.boundary[|h|] != DASH)
    ensures RunAll(cfg, c.(hold := h), cfg.boundary) == c.(inData := false, phase := DelimCheck)
  {
    var f, w, held := Stepper(cfg), cfg.boundary, c.(hold := h);
    BoundaryFound(cfg, c);
    FoldSplits(f, c, w, 0, 1, |w|);
    FoldSplits(f, held, w, 0, 1, |w|);
    assert w[0] == DASH && w[1] == DASH;
    assert Fold(f, c, w, 0, 0) == c && Fold(f, held, w, 0, 0) == held;
    assert Step(cfg, c, DASH) == PreambleStep(cfg, c, DASH) == c.(hold := [DASH]);
    assert Step(cfg, held, DASH) == PreambleStep(cfg, held, DASH) == c.(hold := [DASH]);
  }

  /** A boundary that is taken for more of an earlier match stays hidden. */
  lemma {:induction false} HiddenBehind(cfg: Config, c: Core, lead: Bytes)
    requires Skipping(cfg, c) && ComesFirst(cfg.boundary, lead)
    requires var h := Skipped(cfg.boundary, lead); 0 < |h| < |cfg.boundary| && cfg.boundary[|h|] == DASH
    ensures RunAll(cfg, c, lead + cfg.boundary).phase.Preamble?
  {
    var w := lead + cfg.boundary;
    StaysShort(cfg.boundary, lead);
    PreambleRun(cfg, c, w, |w|);
  }

  lemma {:induction false} StaysShort(boundary: Bytes, lead: Bytes)
    requires DASHES <= boundary && ComesFirst(boundary, lead)
    requires var h := Skipped(boundary, lead); 0 < |h| < |boundary| && boundary[|h|] == DASH
    ensures forall m :: 0 <= m <= |lead + boundary| ==> |Skipped(boundary, (lead + boundary)[..m])| < |boundary|
  {
    var w := lead + boundary;
    forall k | 0 <= k < |w| ensures |Skipped(boundary, w[..k])| < |boundary| {
      ShortBefore(boundary, lead, k);
    }
    assert w[..|lead|] == lead && w[|lead|] == DASH && w[..|w|] == w;
    NeverBeginsAt(boundary, w, |lead|, |w|);
  }

  /** Exactly when the boundary is found: with an empty hold in front of it, or one that
      does not go on with a dash. */
  lemma {:induction false} BoundaryFoundIff(cfg: Config, c: Core, lead: Bytes)
    requires Skipping(cfg, c) && ComesFirst(cfg.boundary, lead)
    ensures RunAll(cfg, c, lead) == c.(hold := Skipped(cfg.boundary, lead))
    ensures RunAll(cfg, c, lead + cfg.boundary) == c.(inData := false, phase := DelimCheck) <==> Harmless(cfg, lead)
    ensures !Harmless(cfg, lead) ==> RunAll(cfg, c, lead + cfg.boundary).phase.Preamble?
  {
    var w, h := lead + cfg.boundary, Skipped(cfg.boundary, lead);
    forall m | 0 <= m <= |lead| ensures |Skipped(cfg.boundary, lead[..m])| < |cfg.boundary| {
      assert lead[..m] == w[..m];
      ShortBefore(cfg.boundary, lead, m);
    }
    assert lead[..|lead|] == lead;
    PreambleRun(cfg, c, lead, |lead|);
    if Harmless(cfg, lead) {
      FoldConcat(Stepper(cfg), c, lead, cfg.boundary);
      FoundFromHold(cfg, c, h);
    } else {
      HiddenBehind(cfg, c, lead);
    }
  }

  /** Whole lines in front of a boundary without CR are always harmless. */
  lemma {:induction false} LinesAreHarmless(cfg: Config, lead: Bytes)
    requires cfg.Valid() && NoCR(cfg.boundary)
    requires lead == [] || (EndsWith(lead, CRLF) && !Occurs(cfg.boundary, lead))
    ensures ComesFirst(cfg.boundary, lead) && Harmless(cfg, lead)
  {
    var b, w := cfg.boundary, lead + cfg.boundary;
    if lead != [] {
      assert lead[|lead| - 2..] == CRLF && w[|lead| - 2] == CR && w[|lead| - 1] == LF;
      forall i | 0 <= i < |lead| ensures !OccursAt(b, w, i) {
        if OccursAt(b, w, i) {
          NotAcross(b, lead, i);
        }
      }
      forall n | 0 <= n < |lead| ensures |Skipped(b, lead[..n])| < |b| {
        assert lead[..n] == w[..n];
        ShortBefore(b, lead, n);
      }
      SkippedIsEnd(b, lead);
      NothingHeld(b, lead, Skipped(b, lead));
    }
  }

  lemma {:induction false} NotAcross(b: Bytes, lead: Bytes, i: nat)
    requires DASHES <= b && NoCR(b) && |lead| >= 2 && lead[|lead| - 2] == CR && lead[|lead| - 1] == LF
    requires i < |lead| && OccursAt(b, lead + b, i)
    ensures Occurs(b, lead)
  {
    var w := lead + b;
    assert w[|lead| - 2] == CR && w[|lead| - 1] == LF;
    assert forall k :: 0 <= k < |b| ==> w[i..i + |b|][k] == w[i + k] == b[k];
    assert w[i] == DASH;
    assert !(i <= |lead| - 2 < i + |b|);
    assert w[i..i + |b|] == lead[i..i + |b|];
    assert OccursAt(b, lead, i);
  }

  lemma {:induction false} NothingHeld(b: Bytes, lead: Bytes, h: Bytes)
    requires DASHES <= b && NoCR(b) && |lead| >= 2 && lead[|lead| - 2] == CR && lead[|lead| - 1] == LF
    requires h <= b && EndsWith(lead, h)
    ensures h == []
  {
    AtTheEnd(lead, h, 1);
    AtTheEnd(lead, h, 2);
  }

  lemma {:induction false} AtTheEnd(w: Bytes, h: Bytes, k: nat)
    requires EndsWith(w, h) && 0 < k
    ensures k <= |h| ==> h[|h| - k] == w[|w| - k]
  {
    assert k <= |h| ==> w[|w| - |h|..][|h| - k] == w[|w| - k];
  }
}
