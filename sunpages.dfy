/**
 * The sun azimuth and sun elevation pages: when they accept being shown,
 * how often they recompute the sun's position, the mid-totality time they
 * use, and the search for the sun's peak elevation during the eclipse.
 * The sun's position itself is computed by a library outside this model;
 * here it is a function parameter giving the elevation a number of seconds
 * after the clock sample the page took.
 */
module SunPages {
  import opened CInt
  import opened Display
  import opened Pages

  /** `SunAzPage::select` and `SunElPage::select`: a good fix is needed even when the user asks. */
  function SunSelect(di: DisplayInfo, sc: Cause): Response
  {
    Respond(di.goodfix && (sc == SelectUser || di.now < EclipseStart(di) || di.now > EclipseEnd(di)))
  }

  /** Both sun pages refuse without a fix, and the automatic cycling skips them during the eclipse. */
  lemma SunSelectNeedsFix(di: DisplayInfo, sc: Cause)
    ensures !di.goodfix ==> SunSelect(di, sc) == SkipPage
    ensures di.goodfix ==> SunSelect(di, SelectUser) == SelectPage
    ensures SunSelect(di, SelectAuto) == SkipPage
      <==> !di.goodfix || di.start - BeforeTotality <= di.now <= di.end + AfterTotality
  {
  }

  /**
   * With a good fix the automatic cycling treats the sun pages exactly as
   * it treats the system page; without one the system page is shown and
   * the sun pages are not.
   */
  lemma SunSelectAgainstSystem(di: DisplayInfo)
    ensures di.goodfix ==> SunSelect(di, SelectAuto) == SystemSelect(di, SelectAuto)
    ensures !di.goodfix ==> SunSelect(di, SelectAuto) == SkipPage && SystemSelect(di, SelectAuto) == SelectPage
  {
  }

  /** Mid-totality, `(end - start) / 2 + start` with C++ integer division. */
  function MidTotality(start: int, end: int): (m: int)
    ensures start <= end ==> start <= m <= end && m - start <= end - m <= m - start + 1
  {
    Div(end - start, 2) + start
  }

  // -----------------------------------------------------------------------
  // The recomputation throttle shared by both pages.
  // -----------------------------------------------------------------------

  /** Counter value after `show`. */
  const ThrottleReset := 0
  /** Counter value after a recomputation: eight updates are skipped. */
  const ThrottleSkip := 8

  /** `if (--rcnt < 0) { rcnt = 8; ... }`: whether to recompute, and the new counter. */
  function Countdown(rcnt: int): (r: (bool, int))
    requires 0 <= rcnt <= ThrottleSkip
    ensures r.0 <==> rcnt == ThrottleReset
    ensures 0 <= r.1 <= ThrottleSkip
    ensures r.0 ==> r.1 == ThrottleSkip
    ensures !r.0 ==> r.1 == rcnt - 1
  {
    var n := rcnt - 1;
    if n < 0 then (true, ThrottleSkip) else (false, n)
  }

  /** The counter after `n` updates following `show`. */
  function CounterAfter(n: nat): (c: int)
    ensures 0 <= c <= ThrottleSkip
  {
    if n == 0 then ThrottleReset else Countdown(CounterAfter(n - 1)).1
  }

  /** Whether the `n`-th update (counting from one) after `show` recomputes. */
  function RecomputesAt(n: nat): bool
    requires n >= 1
  {
    Countdown(CounterAfter(n - 1)).0
  }

  /** The counter runs down from eight in a cycle of nine updates. */
  lemma {:induction false} CounterCycle(n: nat)
    ensures n >= 1 ==> CounterAfter(n) == ThrottleSkip - (n - 1) % 9
  {
    if n >= 2 {
      CounterCycle(n - 1);
      assert (n - 1) % 9 == if (n - 2) % 9 == 8 then 0 else (n - 2) % 9 + 1;
    }
  }

  /** The first update after `show` recomputes, and then every ninth one. */
  lemma ThrottlePeriod(n: nat)
    requires n >= 1
    ensures RecomputesAt(n) <==> (n - 1) % 9 == 0
  {
    CounterCycle(n - 1);
  }

  // -----------------------------------------------------------------------
  // The peak search of the elevation page.
  // -----------------------------------------------------------------------

  /** The search's step, in seconds. */
  const PeakStep := 64

  /**
   * Whether offset `s` is examined by the peak search from `from` to `to`:
   * `from` always (the loop is a do-while), then every step while below `to`.
   */
  predicate IsSample(from: int, to: int, s: int)
  {
    s >= from && (s - from) % PeakStep == 0 && (s == from || s < to)
  }

  /**
   * `peak` is the highest elevation over the samples, or zero when all of
   * them are lower (the search starts from zero).
   */
  ghost predicate IsPeak(elevation: int -> real, from: int, to: int, peak: real)
  {
    && peak >= 0.0
    && (forall s :: IsSample(from, to, s) ==> elevation(s) <= peak)
    && (peak == 0.0 || exists s :: IsSample(from, to, s) && elevation(s) == peak)
  }

  /** There is only one peak. */
  lemma PeakIsUnique(elevation: int -> real, from: int, to: int, p: real, q: real)
    requires IsPeak(elevation, from, to, p) && IsPeak(elevation, from, to, q)
    ensures p == q
  {
  }

  /** The peak search of `SunElPage::update`. */
  method PeakElevation(elevation: int -> real, from: int, to: int) returns (peak: real)
    ensures IsPeak(elevation, from, to, peak)
  {
    peak := 0.0;
    var chkt := from;
    ghost var n := 0;
    while true
      invariant chkt == from + PeakStep * n && n >= 0
      invariant n >= 1 ==> chkt < to
      invariant forall s :: IsSample(from, to, s) && s < chkt ==> elevation(s) <= peak
      invariant peak >= 0.0
      invariant peak == 0.0 || exists s :: IsSample(from, to, s) && s < chkt && elevation(s) == peak
      decreases (if n == 0 then 1 else 0), to - chkt
    {
      var el := elevation(chkt);
      assert IsSample(from, to, chkt) by {
        assert (chkt - from) % PeakStep == 0;
      }
      if peak < el {
        peak := el;
      }
      forall s | IsSample(from, to, s) && s < chkt + PeakStep
        ensures elevation(s) <= peak
      {
        if s >= chkt {
          assert s == chkt;
        }
      }
      chkt := chkt + PeakStep;
      n := n + 1;
      if !(chkt < to) {
        break;
      }
    }
    forall s | IsSample(from, to, s)
      ensures elevation(s) <= peak
    {
      assert s < chkt;
    }
  }

  // -----------------------------------------------------------------------
  // The pages' state.
  // -----------------------------------------------------------------------

  /** `SunAzPage`: only the throttle counter is kept. */
  class SunAzPage {
    var rcnt: int

    predicate Valid()
      reads this
    {
      0 <= rcnt <= ThrottleSkip
    }

    /** The counter is not initialised by the source; the model starts it as `show` would. */
    constructor()
      ensures Valid() && rcnt == ThrottleReset
    {
      rcnt := ThrottleReset;
    }

    /** `SunAzPage::show`: the next update recomputes. */
    method Show()
      modifies this
      ensures Valid() && rcnt == ThrottleReset
    {
      rcnt := ThrottleReset;
    }

    /**
     * `SunAzPage::update`: on a recomputation, the offsets from the clock
     * sample at which the sun's position is computed: now, and in a
     * totality also mid-totality, the eclipse's start and its end.
     */
    method Update(di: DisplayInfo) returns (recomputed: bool, offsets: seq<int>)
      requires Valid()
      modifies this
      ensures Valid()
      ensures (recomputed, rcnt) == Countdown(old(rcnt))
      ensures !recomputed ==> offsets == []
      ensures recomputed && !di.inTotality ==> offsets == [0]
      ensures recomputed && di.inTotality ==> (offsets ==
        [0, MidTotality(di.start, di.end) - di.now, EclipseStart(di) - di.now, EclipseEnd(di) - di.now])
    {
      offsets := [];
      rcnt := rcnt - 1;
      recomputed := rcnt < 0;
      if recomputed {
        rcnt := ThrottleSkip;
        var midt := Div(di.end - di.start, 2) + di.start;
        offsets := [0];
        if di.inTotality {
          offsets := offsets + [midt - di.now, di.start - BeforeTotality - di.now,
            di.end + AfterTotality - di.now];
        }
      }
    }
  }

  /** `SunElPage`: the throttle counter and the values kept between recomputations. */
  class SunElPage {
    var rcnt: int
    /** The mid-totality the kept values were computed for. */
    var midt: int
    /** Elevation at mid-totality. */
    var tel: real
    /** Peak elevation during the eclipse. */
    var peak: real

    predicate Valid()
      reads this
    {
      0 <= rcnt <= ThrottleSkip && peak >= 0.0
    }

    /** None of the fields is initialised by the source; the model starts them at zero. */
    constructor()
      ensures Valid() && rcnt == ThrottleReset && midt == 0 && tel == 0.0 && peak == 0.0
    {
      rcnt := ThrottleReset;
      midt := 0;
      tel := 0.0;
      peak := 0.0;
    }

    /** `SunElPage::show`: the next update recomputes. */
    method Show()
      requires Valid()
      modifies this
      ensures Valid() && rcnt == ThrottleReset
      ensures midt == old(midt) && tel == old(tel) && peak == old(peak)
    {
      rcnt := ThrottleReset;
    }

    /**
     * `SunElPage::update`: throttled; in a totality, the mid-totality
     * elevation and the peak are recomputed only when mid-totality moved,
     * or totality or the position changed.
     */
    method Update(di: DisplayInfo, elevation: int -> real) returns (recomputed: bool, refreshed: bool)
      requires Valid()
      modifies this
      ensures Valid()
      ensures (recomputed, rcnt) == Countdown(old(rcnt))
      ensures refreshed <==> (recomputed && di.inTotality
        && (MidTotality(di.start, di.end) != old(midt) || di.totchg || di.poschg))
      ensures !refreshed ==> midt == old(midt) && tel == old(tel) && peak == old(peak)
      ensures refreshed ==> midt == MidTotality(di.start, di.end) && tel == elevation(midt - di.now)
      ensures refreshed ==> IsPeak(elevation, EclipseStart(di) - di.now, EclipseEnd(di) - di.now, peak)
    {
      refreshed := false;
      rcnt := rcnt - 1;
      recomputed := rcnt < 0;
      if recomputed {
        rcnt := ThrottleSkip;
        if di.inTotality {
          var newmidt := Div(di.end - di.start, 2) + di.start;
          if newmidt != midt || di.totchg || di.poschg {
            refreshed := true;
            Refresh(di, elevation);
          }
        }
      }
    }

    /** The recomputation of `update`: mid-totality, the elevation there and the peak. */
    method Refresh(di: DisplayInfo, elevation: int -> real)
      requires Valid()
      modifies this
      ensures Valid() && rcnt == old(rcnt)
      ensures midt == MidTotality(di.start, di.end) && tel == elevation(midt - di.now)
      ensures IsPeak(elevation, EclipseStart(di) - di.now, EclipseEnd(di) - di.now, peak)
    {
      midt := Div(di.end - di.start, 2) + di.start;
      tel := elevation(midt - di.now);
      peak := PeakElevation(elevation, di.start - BeforeTotality - di.now,
        di.end + AfterTotality - di.now);
    }
  }

  /** After `show`, ten updates: the first and the tenth recompute. */
  method ShowThenTenUpdates(di: DisplayInfo) returns (flags: seq<bool>)
    ensures flags == [true, false, false, false, false, false, false, false, false, true]
  {
    var page := new SunAzPage();
    page.Show();
    flags := [];
    var i := 0;
    while i < 10
      invariant 0 <= i <= 10 && |flags| == i && page.Valid()
      invariant page.rcnt == CounterAfter(i)
      invariant forall j :: 0 <= j < i ==> flags[j] == RecomputesAt(j + 1)
    {
      var r, _ := page.Update(di);
      flags := flags + [r];
      i := i + 1;
    }
    ThrottlePeriod(1);
    ThrottlePeriod(10);
    forall j | 2 <= j <= 9
      ensures !RecomputesAt(j)
    {
      ThrottlePeriod(j);
    }
  }
}
