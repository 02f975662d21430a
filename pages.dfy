/**
 * Page selection (`Page::select` of the simple pages): whether a page
 * accepts being shown, given the display state and whether the user or the
 * automatic cycling asked for it.
 */
module Pages {
  import opened Display

  /** The page numbers of `RunUi`'s page enumeration; `PageCycle` is the number of pages. */
  const PageClock := 0
  const PageGps := 1
  const PageEclipse := 2
  const PageTotality := 3
  const PageSunAzimuth := 4
  const PageSunNow := 5
  const PageSchedule := 6
  const PageSystem := 7
  const PageSensors := 8
  const PageNetwork := 9
  const PageMenu := 10
  const PageCycle := 11

  /** `Page::SelectionCause`. */
  datatype Cause = SelectAuto | SelectUser

  /** `Page::SelectionResponse`. */
  datatype Response = SelectPage | SkipPage

  function Respond(accept: bool): (r: Response)
    ensures r == SelectPage <==> accept
  {
    if accept then SelectPage else SkipPage
  }

  /** The eclipse's start: totality's start less the partial phase. */
  function EclipseStart(di: DisplayInfo): int
  {
    di.start - BeforeTotality
  }

  /** The eclipse's end: totality's end plus the partial phase. */
  function EclipseEnd(di: DisplayInfo): int
  {
    di.end + AfterTotality
  }

  /** `ClockPage::select`: asked for, or no good fix, or an error to show. */
  function ClockSelect(di: DisplayInfo, sc: Cause): Response
  {
    Respond(sc == SelectUser || !di.goodfix || di.errormsg != "")
  }

  /** `GpsPage::select`: always. */
  function GpsSelect(di: DisplayInfo, sc: Cause): (r: Response)
    ensures r == SelectPage
  {
    SelectPage
  }

  /** `EclipsePage::select`: asked for, or a good fix and the eclipse not over. */
  function EclipseSelect(di: DisplayInfo, sc: Cause): Response
  {
    Respond(sc == SelectUser || (di.goodfix && (!di.inTotality || di.now < EclipseEnd(di))))
  }

  /** `TotalityPage::select`. */
  function TotalitySelect(di: DisplayInfo, sc: Cause): Response
  {
    Respond(di.inTotality && (sc == SelectUser || di.now < di.end))
  }

  /** `SystemPage::select`. */
  function SystemSelect(di: DisplayInfo, sc: Cause): Response
  {
    Respond(sc == SelectUser
      || (di.goodfix && (di.now < EclipseStart(di) || di.now > EclipseEnd(di)))
      || !di.goodfix)
  }

  /** `SensorPage::select`: some sensor reads above zero. */
  function SensorSelect(di: DisplayInfo, sc: Cause): Response
  {
    Respond(di.temp > 0.0 || di.relhumid > 0.0 || di.uv > 0.0)
  }

  /** `MenuPage::select`: only when asked for. */
  function MenuSelect(di: DisplayInfo, sc: Cause): Response
  {
    Respond(sc == SelectUser)
  }

  // -----------------------------------------------------------------------
  // What the predicates promise.
  // -----------------------------------------------------------------------

  /** The clock page is chosen by the user, or shown automatically when there is no fix or an error. */
  lemma ClockAutoWhenProblem(di: DisplayInfo)
    ensures ClockSelect(di, SelectUser) == SelectPage
    ensures ClockSelect(di, SelectAuto) == SelectPage <==> (!di.goodfix || di.errormsg != "")
  {
  }

  /** The user may always choose the eclipse page; automatically it needs a good fix. */
  lemma EclipseNeedsFixWhenAuto(di: DisplayInfo)
    ensures EclipseSelect(di, SelectUser) == SelectPage
    ensures EclipseSelect(di, SelectAuto) == SelectPage
      <==> di.goodfix && (!di.inTotality || di.now < di.end + AfterTotality)
  {
  }

  /** The totality page needs a totality even when the user asks for it. */
  lemma TotalityNeedsTotality(di: DisplayInfo, sc: Cause)
    ensures !di.inTotality ==> TotalitySelect(di, sc) == SkipPage
    ensures di.inTotality ==> TotalitySelect(di, SelectUser) == SelectPage
    ensures TotalitySelect(di, SelectAuto) == SelectPage <==> di.inTotality && di.now < di.end
  {
  }

  /**
   * The system page is skipped by the automatic cycling exactly while the
   * fix is good and the eclipse is in progress.
   */
  lemma SystemSkippedDuringEclipse(di: DisplayInfo)
    ensures SystemSelect(di, SelectUser) == SelectPage
    ensures SystemSelect(di, SelectAuto) == SkipPage
      <==> di.goodfix && di.start - BeforeTotality <= di.now <= di.end + AfterTotality
  {
  }

  /** The sensor page does not care who asks. */
  lemma SensorIgnoresCause(di: DisplayInfo)
    ensures SensorSelect(di, SelectUser) == SensorSelect(di, SelectAuto)
  {
  }

  /** The menu page is never reached by automatic cycling. */
  lemma MenuOnlyByUser(di: DisplayInfo, sc: Cause)
    ensures MenuSelect(di, sc) == SelectPage <==> sc == SelectUser
  {
  }
}
