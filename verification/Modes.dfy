/** Filtering a connector's modes by the device's limits. */
module Modes {
  import opened Rects
  import opened Arithmetic

  datatype Mode = Mode(hdisplay: UShort, vdisplay: UShort, vrefresh: nat)

  /** Both limits are unsigned 32-bit; no pixel rate limit means no filtering at all. */
  datatype Limits = Limits(pixelArea: nat, pixelPerSecond: nat)

  function ModeArea(m: Mode): nat {
    m.hdisplay * m.vdisplay
  }

  /** The pixel rate the code compares, in 32-bit arithmetic. */
  function ModeRate(m: Mode): nat {
    Wrap32(Wrap32(ModeArea(m)) * m.vrefresh)
  }

  predicate SameResolution(a: Mode, b: Mode) {
    a.hdisplay == b.hdisplay && a.vdisplay == b.vdisplay
  }

  predicate Lowest(modes: seq<Mode>, m: Mode) {
    forall i :: 0 <= i < |modes| && SameResolution(modes[i], m) ==> m.vrefresh <= modes[i].vrefresh
  }

  predicate Accepted(limits: Limits, modes: seq<Mode>, m: Mode) {
    || limits.pixelPerSecond == 0
    || (Wrap32(ModeArea(m)) <= limits.pixelArea && (ModeRate(m) <= limits.pixelPerSecond || Lowest(modes, m)))
  }

  method IsLowestFrequencyModeOfGivenResolution(modes: seq<Mode>, mode: Mode) returns (lowest: bool)
    ensures lowest == Lowest(modes, mode)
  {
    var i := 0;
    while i < |modes|
      invariant i <= |modes|
      invariant Lowest(modes[..i], mode)
    {
      var m := modes[i];
      if m.hdisplay == mode.hdisplay && m.vdisplay == mode.vdisplay && m.vrefresh < mode.vrefresh {
        assert SameResolution(modes[i], mode);
        return false;
      }
      assert modes[..i + 1] == modes[..i] + [m];
      i := i + 1;
    }
    assert modes[..i] == modes;
    lowest := true;
  }

  method ModeValid(limits: Limits, modes: seq<Mode>, mode: Mode) returns (ok: bool)
    ensures ok == Accepted(limits, modes, mode)
  {
    var areaLimit := Wrap32(mode.hdisplay * mode.vdisplay);
    var modeLimit := Wrap32(areaLimit * mode.vrefresh);
    if limits.pixelPerSecond == 0 {
      return true;
    }
    if areaLimit > limits.pixelArea {
      return false;
    }
    if modeLimit <= limits.pixelPerSecond {
      return true;
    }
    ok := IsLowestFrequencyModeOfGivenResolution(modes, mode);
  }

  // ---- No resolution is lost ----

  ghost predicate Offers(limits: Limits, modes: seq<Mode>, m: Mode) {
    exists i :: 0 <= i < |modes| && SameResolution(modes[i], m) && Accepted(limits, modes, modes[i])
  }

  /** An area of two unsigned shorts does not wrap. */
  lemma AreaIsExact(m: Mode)
    ensures 0 <= ModeArea(m) < TWO_TO_32
  {
    TimesIsProduct(m.hdisplay, m.vdisplay);
    TimesMonotone(m.hdisplay, m.vdisplay, 0xFFFF, 0xFFFF);
    TimesIsProduct(0xFFFF, 0xFFFF);
  }

  /** The index of a lowest mode of `m`'s resolution among the first `n`. */
  lemma {:induction false} LowestExists(modes: seq<Mode>, m: Mode, n: nat) returns (k: nat)
    requires n <= |modes| && exists i :: 0 <= i < n && SameResolution(modes[i], m)
    ensures k < n && SameResolution(modes[k], m)
    ensures forall i :: 0 <= i < n && SameResolution(modes[i], m) ==> modes[k].vrefresh <= modes[i].vrefresh
  {
    var last := n - 1;
    if exists i :: 0 <= i < last && SameResolution(modes[i], m) {
      k := LowestExists(modes, m, last);
      if SameResolution(modes[last], m) && modes[last].vrefresh < modes[k].vrefresh {
        k := last;
      }
    } else {
      k := last;
    }
  }

  /** Each listed resolution keeps an accepted mode exactly when its area is within the limit, or
      nothing is limited; this holds even if the pixel rate wraps around. */
  lemma ResolutionKeptIff(limits: Limits, modes: seq<Mode>, m: Mode)
    requires m in modes
    ensures Offers(limits, modes, m) <==> limits.pixelPerSecond == 0 || ModeArea(m) <= limits.pixelArea
  {
    AreaIsExact(m);
    var j :| 0 <= j < |modes| && modes[j] == m;
    assert SameResolution(modes[j], m);
    var k := LowestExists(modes, m, |modes|);
    assert Lowest(modes, modes[k]);
  }

  // ---- Acceptance is downward closed in the refresh rate ----

  ghost predicate DownwardClosed(limits: Limits, modes: seq<Mode>) {
    forall i, j :: 0 <= i < |modes| && 0 <= j < |modes| && SameResolution(modes[i], modes[j])
      && modes[j].vrefresh <= modes[i].vrefresh && Accepted(limits, modes, modes[i])
      ==> Accepted(limits, modes, modes[j])
  }

  /** All modes are of one resolution, refreshed at most `rate` times a second. */
  ghost predicate UpTo(modes: seq<Mode>, m: Mode, rate: nat) {
    forall i :: 0 <= i < |modes| ==> SameResolution(modes[i], m) && modes[i].vrefresh <= rate
  }

  lemma ProductMonotone(a: nat, x: nat, y: nat)
    requires x <= y
    ensures a * x <= a * y
  {
  }

  lemma RateIsExact(m: Mode, rate: nat)
    requires m.vrefresh <= rate && ModeArea(m) * rate < TWO_TO_32
    ensures ModeRate(m) == ModeArea(m) * m.vrefresh
  {
    AreaIsExact(m);
    SmallProduct(ModeArea(m), m.vrefresh, rate);
  }

  lemma SmallProduct(a: nat, x: nat, rate: nat)
    requires a < TWO_TO_32 && x <= rate && a * rate < TWO_TO_32
    ensures Wrap32(Wrap32(a) * x) == a * x
  {
    ProductMonotone(a, x, rate);
    assert Wrap32(a) == a;
  }

  lemma PairClosed(limits: Limits, modes: seq<Mode>, i: nat, j: nat, rate: nat)
    requires i < |modes| && j < |modes| && SameResolution(modes[i], modes[j])
    requires modes[j].vrefresh <= modes[i].vrefresh <= rate && ModeArea(modes[i]) * rate < TWO_TO_32
    requires Accepted(limits, modes, modes[i])
    ensures Accepted(limits, modes, modes[j])
  {
    RateIsExact(modes[i], rate);
    RateIsExact(modes[j], rate);
    ProductMonotone(ModeArea(modes[i]), modes[j].vrefresh, modes[i].vrefresh);
    if Lowest(modes, modes[i]) {
      assert modes[i].vrefresh == modes[j].vrefresh;
    }
  }

  lemma NoWrapCloses(limits: Limits, modes: seq<Mode>, m: Mode, rate: nat)
    requires UpTo(modes, m, rate) && ModeArea(m) * rate < TWO_TO_32
    ensures DownwardClosed(limits, modes)
  {
    forall i, j | 0 <= i < |modes| && 0 <= j < |modes| && SameResolution(modes[i], modes[j])
      && modes[j].vrefresh <= modes[i].vrefresh && Accepted(limits, modes, modes[i])
      ensures Accepted(limits, modes, modes[j])
    {
      PairClosed(limits, modes, i, j, rate);
    }
  }

  /** The rates around the limit and the least one that wraps: the middle one is rejected while the
      others are accepted. */
  function Gap(limits: Limits, m: Mode): seq<Mode>
    requires ModeArea(m) > 0
  {
    var over := limits.pixelPerSecond / ModeArea(m) + 1;
    [m.(vrefresh := over - 1), m.(vrefresh := over),
     m.(vrefresh := (TWO_TO_32 + ModeArea(m) - 1) / ModeArea(m))]
  }

  lemma Quotient(n: nat, a: nat)
    requires a > 0
    ensures a * (n / a) <= n < a * (n / a) + a
  {
  }

  lemma AddOnce(a: nat, x: nat)
    ensures a * (x + 1) == a * x + a
  {
  }

  /** The first rate beyond `limit` and the first that wraps around, over plain numbers. */
  lemma GapProducts(a: nat, limit: nat, rate: nat, over: nat, wraps: nat)
    requires 0 < a <= limit && limit + a < TWO_TO_32 <= a * rate
    requires over == limit / a + 1 && wraps == (TWO_TO_32 + a - 1) / a
    ensures over < wraps <= rate
    ensures limit < a * over < TWO_TO_32 <= a * wraps < TWO_TO_32 + a
  {
    Quotient(limit, a);
    AddOnce(a, limit / a);
    Quotient(TWO_TO_32 + a - 1, a);
    Ordered(a, over, wraps, rate);
  }

  lemma WrapOnce(n: nat)
    requires TWO_TO_32 <= n < 2 * TWO_TO_32
    ensures Wrap32(n) == n - TWO_TO_32
  {
  }

  lemma GapRates(limits: Limits, m: Mode, rate: nat)
    requires 0 < ModeArea(m) <= limits.pixelPerSecond
    requires limits.pixelPerSecond + ModeArea(m) < TWO_TO_32 <= ModeArea(m) * rate
    ensures var modes := Gap(limits, m);
      && modes[1].vrefresh < modes[2].vrefresh <= rate
      && ModeRate(modes[2]) <= limits.pixelPerSecond < ModeRate(modes[1])
  {
    var a, modes := ModeArea(m), Gap(limits, m);
    var over, wraps := modes[1].vrefresh, modes[2].vrefresh;
    GapProducts(a, limits.pixelPerSecond, rate, over, wraps);
    Unwrapped(a);
    Unwrapped(a * over);
    WrapOnce(a * wraps);
  }

  lemma GapBreaks(limits: Limits, m: Mode, rate: nat)
    requires 0 < ModeArea(m) <= limits.pixelArea && ModeArea(m) <= limits.pixelPerSecond
    requires limits.pixelPerSecond + ModeArea(m) < TWO_TO_32 <= ModeArea(m) * rate
    ensures UpTo(Gap(limits, m), m, rate) && !DownwardClosed(limits, Gap(limits, m))
  {
    var modes := Gap(limits, m);
    AreaIsExact(m);
    GapRates(limits, m, rate);
    assert modes[0].vrefresh < modes[1].vrefresh && SameResolution(modes[0], modes[1]);
    assert !Lowest(modes, modes[1]) && !Accepted(limits, modes, modes[1]);
    assert Accepted(limits, modes, modes[2]) && SameResolution(modes[2], modes[1]);
  }

  lemma Ordered(a: nat, over: nat, wraps: nat, rate: nat)
    requires a > 0 && a * over < TWO_TO_32 <= a * wraps < TWO_TO_32 + a && TWO_TO_32 <= a * rate
    ensures over < wraps <= rate
  {
    if wraps <= over {
      ProductMonotone(a, wraps, over);
    }
    if rate < wraps {
      ProductMonotone(a, rate, wraps - 1);
      AddOnce(a, wraps - 1);
    }
  }

  /** The mode of `m`'s resolution at `rate`. */
  function AtRate(m: Mode, rate: nat): Mode {
    m.(vrefresh := rate)
  }

  /** Up to `rate`, no pixel rate within the limit comes after one beyond it. */
  ghost predicate InitialSegment(limits: Limits, m: Mode, rate: nat) {
    forall slow, fast :: !Breach(limits, m, slow, fast, rate)
  }

  predicate Breach(limits: Limits, m: Mode, slow: nat, fast: nat, rate: nat) {
    0 < slow < fast <= rate && ModeRate(AtRate(m, fast)) <= limits.pixelPerSecond < ModeRate(AtRate(m, slow))
  }

  ghost predicate AlwaysClosed(limits: Limits, m: Mode, rate: nat) {
    forall modes :: UpTo(modes, m, rate) ==> DownwardClosed(limits, modes)
  }

  lemma SegmentCloses(limits: Limits, modes: seq<Mode>, m: Mode, rate: nat)
    requires UpTo(modes, m, rate) && InitialSegment(limits, m, rate)
    ensures DownwardClosed(limits, modes)
  {
    forall i, j | 0 <= i < |modes| && 0 <= j < |modes| && SameResolution(modes[i], modes[j])
      && modes[j].vrefresh <= modes[i].vrefresh && Accepted(limits, modes, modes[i])
      ensures Accepted(limits, modes, modes[j])
    {
      var fast, slow := modes[i].vrefresh, modes[j].vrefresh;
      assert modes[i] == AtRate(m, fast) && modes[j] == AtRate(m, slow);
      if 0 < slow < fast {
        assert !Lowest(modes, modes[i]) && !Breach(limits, m, slow, fast, rate);
      }
    }
  }

  lemma SegmentBroken(limits: Limits, m: Mode, slow: nat, fast: nat, rate: nat)
    requires limits.pixelPerSecond > 0 && Wrap32(ModeArea(m)) <= limits.pixelArea
    requires Breach(limits, m, slow, fast, rate)
    ensures !AlwaysClosed(limits, m, rate)
  {
    var modes := [AtRate(m, 0), AtRate(m, slow), AtRate(m, fast)];
    assert SameResolution(modes[0], modes[1]) && modes[0].vrefresh < modes[1].vrefresh;
    assert !Lowest(modes, modes[1]) && !Accepted(limits, modes, modes[1]);
    assert Accepted(limits, modes, modes[2]) && SameResolution(modes[2], modes[1]);
    assert UpTo(modes, m, rate) && !DownwardClosed(limits, modes);
  }

  /** For any limits and resolution: whatever modes of it up to `rate` are listed, accepting one means
      accepting every slower one, exactly when nothing is limited, or the area is too big, or the 32-bit
      pixel rates within the limit come before all those beyond it. */
  lemma ClosedIff(limits: Limits, m: Mode, rate: nat)
    ensures AlwaysClosed(limits, m, rate) <==>
      limits.pixelPerSecond == 0 || ModeArea(m) > limits.pixelArea || InitialSegment(limits, m, rate)
  {
    AreaIsExact(m);
    Unwrapped(ModeArea(m));
    if limits.pixelPerSecond > 0 && ModeArea(m) <= limits.pixelArea && !InitialSegment(limits, m, rate) {
      var slow, fast :| Breach(limits, m, slow, fast, rate);
      SegmentBroken(limits, m, slow, fast, rate);
    } else {
      ClosedWhen(limits, m, rate);
    }
  }

  lemma ClosedWhen(limits: Limits, m: Mode, rate: nat)
    requires limits.pixelPerSecond == 0 || Wrap32(ModeArea(m)) > limits.pixelArea || InitialSegment(limits, m, rate)
    ensures AlwaysClosed(limits, m, rate)
  {
    forall modes | UpTo(modes, m, rate)
      ensures DownwardClosed(limits, modes)
    {
      if InitialSegment(limits, m, rate) {
        SegmentCloses(limits, modes, m, rate);
      } else {
        Unfiltered(limits, modes, m, rate);
      }
    }
  }

  lemma Unfiltered(limits: Limits, modes: seq<Mode>, m: Mode, rate: nat)
    requires UpTo(modes, m, rate) && (limits.pixelPerSecond == 0 || Wrap32(ModeArea(m)) > limits.pixelArea)
    ensures DownwardClosed(limits, modes)
  {
    assert forall i :: 0 <= i < |modes| ==> ModeArea(modes[i]) == ModeArea(m);
  }

  /** In particular, for a resolution that fits both limits, with room for one more area below 2^32,
      exactly when its pixel rate at `rate` does not wrap. */
  lemma ClosedIffNoWrap(limits: Limits, m: Mode, rate: nat)
    requires 0 < ModeArea(m) <= limits.pixelArea && ModeArea(m) <= limits.pixelPerSecond
    requires limits.pixelPerSecond + ModeArea(m) < TWO_TO_32
    ensures AlwaysClosed(limits, m, rate) <==> ModeArea(m) * rate < TWO_TO_32
  {
    if ModeArea(m) * rate < TWO_TO_32 {
      forall modes | UpTo(modes, m, rate)
        ensures DownwardClosed(limits, modes)
      {
        NoWrapCloses(limits, modes, m, rate);
      }
    } else {
      GapBreaks(limits, m, rate);
    }
  }
}
