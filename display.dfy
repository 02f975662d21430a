/**
 * The shared display state (`DisplayStuff`): the latest time, position,
 * totality times, error and notice messages, with change flags that the user
 * interface collects and clears in one step.
 *
 * The spinlock is not modelled. The floating-point sensor averages and the
 * battery readings are not part of this model; the sensor readings that page
 * selection consults are kept as plain values.
 */
module Display {

  /** `Location`: longitude and latitude in degrees. */
  datatype Location = Location(lon: real, lat: real)

  /** `Location::operator +`: component-wise sum. */
  function AddLocation(a: Location, b: Location): Location
  {
    Location(a.lon + b.lon, a.lat + b.lat)
  }

  /** The position offset of `DisplayStuff`: none before any is set. */
  const NoOffset := Location(0.0, 0.0)

  /**
   * What the stored positions rely on: without an offset a position is
   * stored as given, offsets compose, and an offset is undone by its negation.
   * Coordinates are exact reals here; the source's doubles satisfy the first
   * law exactly and the other two only up to rounding.
   */
  lemma OffsetLaws(l: Location, a: Location, b: Location)
    ensures AddLocation(l, NoOffset) == l
    ensures AddLocation(AddLocation(l, a), b) == AddLocation(l, AddLocation(a, b))
    ensures AddLocation(AddLocation(l, a), Location(-a.lon, -a.lat)) == l
  {
  }

  /** Seconds from the eclipse's start to totality. */
  const BeforeTotality: int := 4622
  /** Seconds from the end of totality to the eclipse's end. */
  const AfterTotality: int := 4589
  /** Totality times before any are known: the end of the day. */
  const EndOfDay: int := 86400

  /**
   * `DisplayInfo`: the copy of the state handed to the pages. `now` and the
   * totality times are seconds since midnight UTC; the five change flags
   * are single bits.
   */
  datatype DisplayInfo = DisplayInfo(
    chkloc: Location,
    curloc: Location,
    errormsg: string,
    noticemsg: string,
    temp: real,
    relhumid: real,
    uv: real,
    now: int,
    errtime: int,
    notetime: int,
    errcnt: int,
    locerr: int,
    start: int,
    end: int,
    sats: int,
    totchg: bool,
    poschg: bool,
    chkchg: bool,
    errchg: bool,
    notchg: bool,
    inTotality: bool,
    goodfix: bool,
    test: bool)
  {
    /** No change flag is set. */
    predicate Unchanged()
    {
      !totchg && !poschg && !chkchg && !errchg && !notchg
    }
  }

  /**
   * A freshly constructed `DisplayInfo`. Fields the source leaves
   * uninitialised (`now`, `errtime`, `notetime`, `errcnt`, `locerr`,
   * `sats`) are 0 here.
   */
  function DefaultInfo(): (di: DisplayInfo)
    ensures di.start == EndOfDay && di.end == EndOfDay
    ensures di.Unchanged() && !di.inTotality && !di.goodfix && !di.test
    ensures di.errormsg == "" && di.errcnt == 0
    ensures di.chkloc == Location(0.0, 0.0) && di.curloc == Location(0.0, 0.0)
  {
    DisplayInfo(Location(0.0, 0.0), Location(0.0, 0.0), "", "", 0.0, 0.0, 0.0,
      0, 0, 0, 0, 0, EndOfDay, EndOfDay, 0,
      false, false, false, false, false, false, false, false)
  }

  /** The state with every change flag cleared and nothing else changed. */
  function ClearFlags(di: DisplayInfo): (r: DisplayInfo)
    ensures r.Unchanged()
    ensures r.(totchg := di.totchg, poschg := di.poschg, chkchg := di.chkchg,
               errchg := di.errchg, notchg := di.notchg) == di
  {
    di.(totchg := false, poschg := false, chkchg := false, errchg := false, notchg := false)
  }

  class DisplayStuff {
    var info: DisplayInfo
    var poff: Location
    var toff: int

    /** The error count is never negative. */
    ghost predicate Valid()
      reads this
    {
      info.errcnt >= 0
    }

    /** Default state, no position offset, no time offset. */
    constructor ()
      ensures Valid()
      ensures info == DefaultInfo() && poff == NoOffset && toff == 0
    {
      info := DefaultInfo();
      poff := NoOffset;
      toff := 0;
    }

    /** `setTime`: `now` is the given time plus the time offset. */
    method SetTime(time: int)
      requires Valid()
      modifies this
      ensures Valid()
      ensures info == old(info).(now := time + toff)
      ensures toff == old(toff) && poff == old(poff)
    {
      info := info.(now := time + toff);
    }

    /**
     * `setTimeOffset`: `now` moves by the change of offset, so the time
     * last given to `setTime` is kept; the totality flag asks for a remake
     * of the schedule.
     */
    method SetTimeOffset(o: int)
      requires Valid()
      modifies this
      ensures Valid()
      ensures toff == o && poff == old(poff)
      ensures info.now - toff == old(info.now - toff)
      ensures info == old(info).(now := info.now, totchg := true)
    {
      info := info.(now := info.now + o - toff, totchg := true);
      toff := o;
    }

    /** `setCheckLoc`: the offset position, flagged, and the fix counted as good. */
    method SetCheckLoc(l: Location)
      requires Valid()
      modifies this
      ensures Valid()
      ensures info == old(info).(chkloc := AddLocation(l, poff), chkchg := true, goodfix := true)
      ensures toff == old(toff) && poff == old(poff)
    {
      info := info.(chkloc := AddLocation(l, poff), chkchg := true, goodfix := true);
    }

    /** `setCurrLoc`: the offset position, its error and satellite count; a good fix. */
    method SetCurrLoc(l: Location, le: int, su: int)
      requires Valid()
      modifies this
      ensures Valid()
      ensures info == old(info).(curloc := AddLocation(l, poff), locerr := le, sats := su,
                                 poschg := true, goodfix := true)
      ensures toff == old(toff) && poff == old(poff)
    {
      info := info.(curloc := AddLocation(l, poff), locerr := le, sats := su, poschg := true, goodfix := true);
    }

    /** `setLocOffset`: a new position offset, flagged as a position and a totality change. */
    method SetLocOffset(o: Location)
      requires Valid()
      modifies this
      ensures Valid()
      ensures poff == o && toff == old(toff)
      ensures info == old(info).(poschg := true, totchg := true)
    {
      poff := o;
      info := info.(poschg := true, totchg := true);
    }

    /** `getLocOffset`. */
    method GetLocOffset() returns (o: Location)
      ensures o == poff
    {
      o := poff;
    }

    /** `badFix`: the fix is no longer good, and that is a position change. */
    method BadFix()
      requires Valid()
      modifies this
      ensures Valid()
      ensures info == old(info).(poschg := true, goodfix := false)
      ensures toff == old(toff) && poff == old(poff)
    {
      info := info.(poschg := true, goodfix := false);
    }

    /** `updateTotality`: stores and flags the values only when they differ. */
    method UpdateTotality(s: int, e: int, i: bool)
      requires Valid()
      modifies this
      ensures Valid()
      ensures (i == old(info.inTotality) && s == old(info.start) && e == old(info.end))
        ==> info == old(info)
      ensures !(i == old(info.inTotality) && s == old(info.start) && e == old(info.end))
        ==> info == old(info).(inTotality := i, start := s, end := e, totchg := true)
      ensures toff == old(toff) && poff == old(poff)
    {
      if i != info.inTotality || s != info.start || e != info.end {
        info := info.(inTotality := i, start := s, end := e, totchg := true);
      }
    }

    /** `setNotice`: the message, stamped with `now`, flagged. */
    method SetNotice(msg: string)
      requires Valid()
      modifies this
      ensures Valid()
      ensures info == old(info).(notetime := old(info.now), noticemsg := msg, notchg := true)
      ensures toff == old(toff) && poff == old(poff)
    {
      info := info.(notetime := info.now, noticemsg := msg, notchg := true);
    }

    /**
     * `setError`: only an error to be shown more times than the current one
     * replaces it; the change flag is set only when the text differs.
     */
    method SetError(msg: string, cnt: int)
      requires Valid()
      modifies this
      ensures Valid()
      ensures old(info.errcnt) >= cnt ==> info == old(info)
      ensures old(info.errcnt) < cnt && old(info.errormsg) == msg
        ==> info == old(info).(errtime := old(info.now), errcnt := cnt)
      ensures old(info.errcnt) < cnt && old(info.errormsg) != msg
        ==> info == old(info).(errtime := old(info.now), errcnt := cnt, errormsg := msg, errchg := true)
      ensures toff == old(toff) && poff == old(poff)
    {
      if info.errcnt < cnt {
        info := info.(errtime := info.now, errcnt := cnt);
        if info.errormsg != msg {
          info := info.(errormsg := msg, errchg := true);
        }
      }
    }

    /** `clearError`: no error left to show, and no message. */
    method ClearError()
      requires Valid()
      modifies this
      ensures Valid()
      ensures info == old(info).(errcnt := 0, errormsg := "")
      ensures toff == old(toff) && poff == old(poff)
    {
      info := info.(errcnt := 0, errormsg := "");
    }

    /** `decError`: one showing fewer, never below zero; the message stays. */
    method DecError()
      requires Valid()
      modifies this
      ensures Valid()
      ensures info.errcnt == if old(info.errcnt) - 1 <= 0 then 0 else old(info.errcnt) - 1
      ensures info == old(info).(errcnt := info.errcnt)
      ensures toff == old(toff) && poff == old(poff)
    {
      var c := info.errcnt - 1;
      if c <= 0 {
        c := 0;
      }
      info := info.(errcnt := c);
    }

    /** `getInfo`: a copy of the state as it was, after which all change flags are clear. */
    method GetInfo() returns (di: DisplayInfo)
      requires Valid()
      modifies this
      ensures Valid()
      ensures di == old(info)
      ensures info == ClearFlags(old(info))
      ensures toff == old(toff) && poff == old(poff)
    {
      di := info;
      info := ClearFlags(info);
    }

    /** `setTesting`: marks a test run. */
    method SetTesting()
      requires Valid()
      modifies this
      ensures Valid()
      ensures info == old(info).(test := true)
      ensures toff == old(toff) && poff == old(poff)
    {
      info := info.(test := true);
    }

    /** `wasGood`. */
    function WasGood(): bool
      reads this
    {
      info.goodfix
    }

    /** `isTesting`. */
    function IsTesting(): bool
      reads this
    {
      info.test
    }
  }

  // -----------------------------------------------------------------------
  // Scenarios on a fresh state.
  // -----------------------------------------------------------------------

  /**
   * The offset applies to times set before and after it: only the last
   * offset counts, and `now` is the last time given plus that offset.
   */
  method OnlyLastOffsetCounts(t: int, o1: int, o2: int, t2: int)
    returns (afterOffsets: int, afterTime: int, totalityFlag: bool)
    ensures afterOffsets == t + o2
    ensures afterTime == t2 + o2
    ensures totalityFlag
  {
    var d := new DisplayStuff();
    d.SetTime(t);
    d.SetTimeOffset(o1);
    d.SetTimeOffset(o2);
    afterOffsets := d.info.now;
    d.SetTime(t2);
    afterTime := d.info.now;
    totalityFlag := d.info.totchg;
  }

  /**
   * Two errors in a row: the one with the larger showing count wins, ties
   * keep the first; a count of zero or less never replaces the empty start.
   */
  method TwoErrors(m1: string, c1: int, m2: string, c2: int)
    returns (msg: string, cnt: int)
    ensures cnt == if c2 > c1 && c2 > 0 then c2 else if c1 > 0 then c1 else 0
    ensures msg == if c2 > c1 && c2 > 0 then m2 else if c1 > 0 then m1 else ""
  {
    var d := new DisplayStuff();
    d.SetError(m1, c1);
    d.SetError(m2, c2);
    msg := d.info.errormsg;
    cnt := d.info.errcnt;
  }

  /**
   * Change flags are reported once: a first `getInfo` sees the flags the
   * setters raised, a second one sees none.
   */
  method FlagsReportedOnce(l: Location, s: int, e: int)
    returns (first: DisplayInfo, second: DisplayInfo)
    ensures first.poschg && first.totchg && first.goodfix
    ensures first.start == s && first.end == e && first.inTotality
    ensures second.Unchanged() && second.goodfix
    ensures second == ClearFlags(first)
  {
    var d := new DisplayStuff();
    d.SetCurrLoc(l, 5, 7);
    d.UpdateTotality(s, e, true);
    first := d.GetInfo();
    second := d.GetInfo();
  }

  /** An error is shown for at most its count of `decError` calls, then stays at zero. */
  method ErrorCountsDown(msg: string) returns (c1: int, c2: int, c3: int, kept: string)
    ensures c1 == 1 && c2 == 0 && c3 == 0
    ensures kept == msg
  {
    var d := new DisplayStuff();
    d.SetError(msg, 2);
    d.DecError();
    c1 := d.info.errcnt;
    d.DecError();
    c2 := d.info.errcnt;
    d.DecError();
    c3 := d.info.errcnt;
    kept := d.info.errormsg;
  }
}
