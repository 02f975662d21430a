/**
 * The user interface's page cycling (`RunUi`): the search for the next or
 * previous page that accepts being shown, page pinning, the automatic page
 * switch time, and the hand-off of the page an alert asks for.
 *
 * Times are signed 64-bit nanosecond counts (`NanoTime`), modelled as `int`.
 * The clock is not read by the model: each operation that samples it takes
 * the sample as a parameter.
 */
module RunUi {
  import opened Display
  import opened Pages
  import opened SunPages
  import opened Schedule
  import opened Network

  /** `pagetime`: 11920 ms, in nanoseconds. */
  const PageTime := 11_920_000_000

  /** The 64 ms the UI loop adds to its clock sample because the display is slow. */
  const DisplayLead := 64_000_000

  /** `NanoTime::max()`. */
  const NanoMax := 0x7FFF_FFFF_FFFF_FFFF

  /**
   * The `select` of the page at index `p`, as the constructor lays them out.
   * The network page's answer depends on the interfaces its own refresh
   * finds; `netUp` says whether that set is non-empty.
   */
  function PageSelect(p: int, di: DisplayInfo, sc: Cause, netUp: bool): Response
    requires 0 <= p < PageCycle
  {
    if p == PageClock then ClockSelect(di, sc)
    else if p == PageGps then GpsSelect(di, sc)
    else if p == PageEclipse then EclipseSelect(di, sc)
    else if p == PageTotality then TotalitySelect(di, sc)
    else if p == PageSunAzimuth || p == PageSunNow then SunSelect(di, sc)
    else if p == PageSchedule then ScheduleSelect(di, sc)
    else if p == PageSystem then SystemSelect(di, sc)
    else if p == PageSensors then SensorSelect(di, sc)
    else if p == PageNetwork then NetworkSelect(di, sc, netUp)
    else MenuSelect(di, sc)
  }

  /** The answer of slot `p` of the page table: an empty slot never accepts. */
  function Answer(present: seq<bool>, p: int, di: DisplayInfo, sc: Cause, netUp: bool): (r: Response)
    requires |present| == PageCycle && 0 <= p < PageCycle
    ensures !present[p] ==> r == SkipPage
    ensures p == PageGps && present[p] ==> r == SelectPage
    ensures p == PageMenu && sc == SelectAuto ==> r == SkipPage
  {
    if present[p] then PageSelect(p, di, sc, netUp) else SkipPage
  }

  /**
   * The page reached after `k` steps from `from`, forwards (`up`) or
   * backwards, wrapping around the page cycle.
   */
  function Visited(from: int, k: int, up: bool): (q: int)
    requires 0 <= from < PageCycle && 0 <= k <= PageCycle
    ensures 0 <= q < PageCycle
  {
    if up then (if from + k < PageCycle then from + k else from + k - PageCycle)
    else (if from - k >= 0 then from - k else from - k + PageCycle)
  }

  /** Stepping is addition or subtraction modulo the page cycle. */
  lemma VisitedModular(from: int, k: int, up: bool)
    requires 0 <= from < PageCycle && 0 <= k <= PageCycle
    ensures up ==> Visited(from, k, up) == (from + k) % PageCycle
    ensures !up ==> Visited(from, k, up) == (from - k) % PageCycle
  {
  }

  /** The number of steps, one to a whole cycle, from `from` to `to`. */
  function Distance(from: int, to: int, up: bool): (k: int)
    requires 0 <= from < PageCycle && 0 <= to < PageCycle
    ensures 1 <= k <= PageCycle
    ensures Visited(from, k, up) == to
  {
    if up then (if to > from then to - from else to - from + PageCycle)
    else (if to < from then from - to else from - to + PageCycle)
  }

  /** One more step moves to the neighbouring slot, wrapping around the cycle. */
  lemma VisitedNext(from: int, k: int, up: bool)
    requires 0 <= from < PageCycle && 0 <= k < PageCycle
    ensures var q := Visited(from, k, up);
      Visited(from, k + 1, up) == if up then (if q + 1 >= PageCycle then PageClock else q + 1)
        else (if q - 1 < PageClock then PageCycle - 1 else q - 1)
  {
  }

  /** Steps of one to a whole cycle reach distinct pages, so the distance is the only such count. */
  lemma DistanceUnique(from: int, k: int, up: bool)
    requires 0 <= from < PageCycle && 1 <= k <= PageCycle
    ensures Distance(from, Visited(from, k, up), up) == k
  {
  }

  /**
   * `to` is the first page in the direction of `up`, after `from` and
   * possibly `from` itself a whole cycle later, whose slot accepts.
   */
  predicate FirstAccepting(present: seq<bool>, from: int, to: int, up: bool,
    di: DisplayInfo, sc: Cause, netUp: bool)
    requires |present| == PageCycle && 0 <= from < PageCycle
  {
    && 0 <= to < PageCycle
    && Answer(present, to, di, sc, netUp) == SelectPage
    && forall j :: 1 <= j < Distance(from, to, up) ==>
         Answer(present, Visited(from, j, up), di, sc, netUp) == SkipPage
  }

  /** The search has a single answer. */
  lemma FirstAcceptingUnique(present: seq<bool>, from: int, a: int, b: int, up: bool,
    di: DisplayInfo, sc: Cause, netUp: bool)
    requires |present| == PageCycle && 0 <= from < PageCycle
    requires FirstAccepting(present, from, a, up, di, sc, netUp)
    requires FirstAccepting(present, from, b, up, di, sc, netUp)
    ensures a == b
  {
    var da, db := Distance(from, a, up), Distance(from, b, up);
    // The page each count reaches is what the other search's quantifier is about.
    var ra, rb := Answer(present, Visited(from, da, up), di, sc, netUp),
      Answer(present, Visited(from, db, up), di, sc, netUp);
  }

  /** When every other page refuses, the search comes back to the page it started from. */
  lemma CurrentPageChosen(present: seq<bool>, from: int, up: bool, di: DisplayInfo, sc: Cause, netUp: bool)
    requires |present| == PageCycle && 0 <= from < PageCycle
    requires Answer(present, from, di, sc, netUp) == SelectPage
    requires forall q :: 0 <= q < PageCycle && q != from ==> Answer(present, q, di, sc, netUp) == SkipPage
    ensures FirstAccepting(present, from, from, up, di, sc, netUp)
  {
    assert Distance(from, from, up) == PageCycle;
    forall j | 1 <= j < PageCycle
      ensures Answer(present, Visited(from, j, up), di, sc, netUp) == SkipPage
    {
      assert Visited(from, j, up) != from;
    }
  }

  /** The automatic cycling never lands on the menu page. */
  lemma AutoNeverMenu(present: seq<bool>, from: int, to: int, up: bool, di: DisplayInfo, netUp: bool)
    requires |present| == PageCycle && 0 <= from < PageCycle
    requires FirstAccepting(present, from, to, up, di, SelectAuto, netUp)
    ensures to != PageMenu
  {
  }

  /**
   * The page switch time after `changePage(sc, p)`: the menu page keeps
   * itself up indefinitely; a user's choice postpones the switch by five
   * page times unless the page is pinned.
   */
  function SwitchAfterChange(pageswitch: int, pinned: bool, sc: Cause, p: int, now: int): (t: int)
    ensures p == PageMenu ==> t == NanoMax
    ensures p != PageMenu && (pinned || sc == SelectAuto) ==> t == pageswitch
    ensures p != PageMenu && !pinned && sc == SelectUser ==> t == now + 5 * PageTime
  {
    if p == PageMenu then NanoMax
    else if sc == SelectUser && !pinned then now + 5 * PageTime
    else pageswitch
  }

  /** The search loop of `incPage`: the first slot forwards from `from` whose page accepts. */
  method SeekUp(present: seq<bool>, from: int, di: DisplayInfo, sc: Cause, netUp: bool) returns (p: int)
    requires |present| == PageCycle && present[PageGps] && 0 <= from < PageCycle
    ensures FirstAccepting(present, from, p, true, di, sc, netUp)
    ensures Distance(from, p, true) <= Distance(from, PageGps, true)
  {
    p := from;
    var sr := SkipPage;
    ghost var k := 0;
    while true
      invariant 0 <= k < Distance(from, PageGps, true)
      invariant p == Visited(from, k, true) && sr == SkipPage
      invariant forall j :: 1 <= j <= k ==> Answer(present, Visited(from, j, true), di, sc, netUp) == SkipPage
      decreases Distance(from, PageGps, true) - k
    {
      VisitedNext(from, k, true);
      p := p + 1;
      if p >= PageCycle {
        p := PageClock;
      }
      k := k + 1;
      // an empty slot is passed over; a present page is asked to select
      sr := Answer(present, p, di, sc, netUp);
      if sr != SkipPage {
        break;
      }
    }
    DistanceUnique(from, k, true);
  }

  /** The search loop of `decPage`: the first slot backwards from `from` whose page accepts. */
  method SeekDown(present: seq<bool>, from: int, di: DisplayInfo, sc: Cause, netUp: bool) returns (p: int)
    requires |present| == PageCycle && present[PageGps] && 0 <= from < PageCycle
    ensures FirstAccepting(present, from, p, false, di, sc, netUp)
    ensures Distance(from, p, false) <= Distance(from, PageGps, false)
  {
    p := from;
    var sr := SkipPage;
    ghost var k := 0;
    while true
      invariant 0 <= k < Distance(from, PageGps, false)
      invariant p == Visited(from, k, false) && sr == SkipPage
      invariant forall j :: 1 <= j <= k ==> Answer(present, Visited(from, j, false), di, sc, netUp) == SkipPage
      decreases Distance(from, PageGps, false) - k
    {
      VisitedNext(from, k, false);
      p := p - 1;
      if p < PageClock {
        p := PageCycle - 1;
      }
      k := k + 1;
      // an empty slot is passed over; a present page is asked to select
      sr := Answer(present, p, di, sc, netUp);
      if sr != SkipPage {
        break;
      }
    }
    DistanceUnique(from, k, false);
  }

  class RunUi {
    /** Index of the current page. */
    var page: int
    var pagepinned: bool
    /** When the displayed page should automatically switch. */
    var pageswitch: int
    /** Which slots of the page table hold a page. */
    const present: seq<bool>

    /**
     * The page table has every slot and a GPS page, the current page is a
     * slot, and a pinned page is never switched away from automatically.
     */
    predicate Valid()
      reads this
    {
      && |present| == PageCycle && present[PageGps]
      && 0 <= page < PageCycle
      && (pagepinned ==> pageswitch == NanoMax)
    }

    /**
     * The constructor fills every slot and starts on the clock page; the
     * first switch time is the one `run` sets from its first clock sample.
     */
    constructor(now: int)
      ensures Valid()
      ensures present == seq(PageCycle, _ => true)
      ensures page == PageClock && !pagepinned && pageswitch == now + PageTime
    {
      present := seq(PageCycle, _ => true);
      page := PageClock;
      pagepinned := false;
      pageswitch := now + PageTime;
    }

    /** `advancePageTime`: five page times from now, unless pinned. */
    method AdvancePageTime(now: int)
      requires Valid()
      modifies this
      ensures Valid()
      ensures page == old(page) && pagepinned == old(pagepinned)
      ensures old(pagepinned) ==> pageswitch == old(pageswitch)
      ensures !old(pagepinned) ==> pageswitch == now + 5 * PageTime
    {
      if !pagepinned {
        pageswitch := now + PageTime * 5;
      }
    }

    /** `changePage`, less the screen and input wiring. */
    method ChangePage(sc: Cause, p: int, now: int)
      requires Valid() && 0 <= p < PageCycle
      modifies this
      ensures Valid()
      ensures page == p && pagepinned == old(pagepinned)
      ensures pageswitch == SwitchAfterChange(old(pageswitch), pagepinned, sc, p, now)
    {
      page := p;
      if sc == SelectUser {
        AdvancePageTime(now);
      }
      if page == PageSchedule {
      } else if page == PageMenu {
        pageswitch := NanoMax;
      }
    }

    /**
     * `incPage`: nothing when the button is released; otherwise the first
     * page forwards that accepts, at the latest the GPS page. How far the
     * input moved does not matter.
     */
    method IncPage(di: DisplayInfo, sc: Cause, val: int, netUp: bool, now: int)
      requires Valid()
      modifies this
      ensures Valid()
      ensures val == 0 ==> page == old(page) && pageswitch == old(pageswitch)
      ensures pagepinned == old(pagepinned)
      ensures val != 0 ==> FirstAccepting(present, old(page), page, true, di, sc, netUp)
      ensures val != 0 ==> Distance(old(page), page, true) <= Distance(old(page), PageGps, true)
      ensures val != 0 ==> pageswitch == SwitchAfterChange(old(pageswitch), pagepinned, sc, page, now)
    {
      if val == 0 {
        return;
      }
      var p := SeekUp(present, page, di, sc, netUp);
      ChangePage(sc, p, now);
    }

    /** `decPage`: as `incPage`, backwards. */
    method DecPage(di: DisplayInfo, sc: Cause, val: int, netUp: bool, now: int)
      requires Valid()
      modifies this
      ensures Valid()
      ensures val == 0 ==> page == old(page) && pageswitch == old(pageswitch)
      ensures pagepinned == old(pagepinned)
      ensures val != 0 ==> FirstAccepting(present, old(page), page, false, di, sc, netUp)
      ensures val != 0 ==> Distance(old(page), page, false) <= Distance(old(page), PageGps, false)
      ensures val != 0 ==> pageswitch == SwitchAfterChange(old(pageswitch), pagepinned, sc, page, now)
    {
      if val == 0 {
        return;
      }
      var p := SeekDown(present, page, di, sc, netUp);
      ChangePage(sc, p, now);
    }

    /** `pinPage`: a press toggles pinning; unpinning switches one page time later. */
    method PinPage(val: int, now: int)
      requires Valid()
      modifies this
      ensures Valid() && page == old(page)
      ensures val == 0 ==> pagepinned == old(pagepinned) && pageswitch == old(pageswitch)
      ensures val != 0 ==> pagepinned == !old(pagepinned)
      ensures val != 0 && pagepinned ==> pageswitch == NanoMax
      ensures val != 0 && !pagepinned ==> pageswitch == now + PageTime
    {
      if val == 0 {
        return;
      }
      if pagepinned {
        pagepinned := false;
        pageswitch := now + PageTime;
      } else {
        pagepinned := true;
        pageswitch := NanoMax;
      }
    }

    /** The dial: forwards for a positive value, backwards otherwise. */
    method Dial(di: DisplayInfo, val: int, netUp: bool, now: int)
      requires Valid()
      modifies this
      ensures Valid() && pagepinned == old(pagepinned)
      ensures val == 0 ==> page == old(page) && pageswitch == old(pageswitch)
      ensures val > 0 ==> FirstAccepting(present, old(page), page, true, di, SelectUser, netUp)
      ensures val < 0 ==> FirstAccepting(present, old(page), page, false, di, SelectUser, netUp)
    {
      if val > 0 {
        IncPage(di, SelectUser, val, netUp, now);
      } else {
        DecPage(di, SelectUser, val, netUp, now);
      }
    }

    /**
     * One pass of the UI loop's page handling, from its clock sample `now`:
     * a page asked for by an alert (`chgp`) is shown at once as if the user
     * chose it; otherwise, once the switch time has passed, the next page
     * that accepts automatic selection is shown for one page time.
     */
    method Tick(di: DisplayInfo, chgp: int, netUp: bool, now: int)
      requires Valid() && chgp < PageCycle
      requires now + DisplayLead <= NanoMax
      modifies this
      ensures Valid() && pagepinned == old(pagepinned)
      ensures chgp > 0 ==> page == chgp
      ensures chgp > 0 && !pagepinned ==> pageswitch == now + DisplayLead + 5 * PageTime
      ensures chgp > 0 && pagepinned ==> pageswitch == NanoMax
      ensures chgp <= 0 && now + DisplayLead > old(pageswitch) ==>
        FirstAccepting(present, old(page), page, true, di, SelectAuto, netUp)
        && pageswitch == now + DisplayLead + PageTime
      ensures chgp <= 0 && now + DisplayLead <= old(pageswitch) ==>
        page == old(page) && pageswitch == old(pageswitch)
      ensures chgp <= 0 && pagepinned ==> page == old(page) && pageswitch == old(pageswitch)
    {
      var time := now + DisplayLead;
      var chgpage := chgp;
      if chgpage > 0 {
        ChangePage(SelectUser, chgpage, now);
        if !pagepinned {
          pageswitch := time + PageTime * 5;
        }
      } else {
        if time > pageswitch {
          IncPage(di, SelectAuto, 1, netUp, now);
          pageswitch := time + PageTime;
        }
      }
    }
  }

  /** Every page is built, so a released button leaves the clock page and a pressed one moves on. */
  method FirstPress(di: DisplayInfo, now: int) returns (released: int, pressed: int)
    ensures released == PageClock
    ensures pressed == PageGps
  {
    var ui := new RunUi(now);
    ui.IncPage(di, SelectUser, 0, false, now);
    released := ui.page;
    ui.IncPage(di, SelectUser, 1, false, now);
    pressed := ui.page;
    assert Visited(PageClock, 1, true) == PageGps;
  }
}
