/**
 * The schedule page's timetable (`SchedulePage`): the list of photographs
 * and other events planned around totality, the time-keyed event table
 * built from it, and the alerts it asks the scheduler to sound.
 *
 * The timetable is specified by `Plan`, one entry per event in the order
 * `makeEvents` emplaces them; `Table` is the resulting event table and
 * `AllAlerts` the records handed to the scheduler. The class method
 * `SchedulePage.MakeEvents` is proved to produce exactly these.
 */
module Schedule {
  import opened CInt
  import opened Text
  import opened Attention
  import opened Display
  import opened Pages
  import opened SunPages

  /** Priority of every alert the schedule page adds. */
  const Priority := 3

  /** Seconds the schedule page stays selectable after the eclipse ends. */
  const Linger := 180

  /** `SchedulePage::select`. */
  function ScheduleSelect(di: DisplayInfo, sc: Cause): Response
  {
    Respond(di.inTotality && (sc == SelectUser || di.now < di.end + AfterTotality + Linger))
  }

  /** The schedule page needs a totality; automatically it is offered until three minutes after the eclipse. */
  lemma ScheduleNeedsTotality(di: DisplayInfo, sc: Cause)
    ensures !di.inTotality ==> ScheduleSelect(di, sc) == SkipPage
    ensures di.inTotality ==> ScheduleSelect(di, SelectUser) == SelectPage
    ensures ScheduleSelect(di, SelectAuto) == SelectPage
      <==> di.inTotality && di.now - (di.end + AfterTotality) < 180
  {
  }

  // -----------------------------------------------------------------------
  // The timetable.
  // -----------------------------------------------------------------------

  /** An event table value: a text and its menu index. */
  datatype Event = Event(text: string, index: int)

  /** What an entry asks of the scheduler: `addAttn`, or a single warning. */
  datatype Alerting = Attn | Warn

  /** One planned event. */
  datatype Entry = Entry(time: int, text: string, alerting: Alerting)

  /** Number of events in a totality's plan. */
  const PlanLength := 20

  /** Time of the `k`-th partial-phase picture before totality: the `double` accumulator truncated. */
  function PartBefore(start: int, k: int): int
  {
    Div(8 * (start - BeforeTotality) + BeforeTotality * k, 8)
  }

  /** Time of the `k`-th partial-phase picture after totality. */
  function PartAfter(end: int, k: int): int
  {
    Div(8 * end + AfterTotality * k, 8)
  }

  function PartLabel(cnt: nat): string
  {
    "Part pic " + NatToString(cnt)
  }

  /** The event at position `pos` of the plan for a totality from `start` to `end`. */
  function EntryAt(start: int, end: int, pos: nat): Entry
    requires pos < PlanLength
  {
    if pos == 0 then Entry(start - BeforeTotality, "Start pic", Attn)
    else if pos <= 6 then Entry(PartBefore(start, pos), PartLabel(pos), Attn)
    else if pos == 7 then Entry(PartBefore(start, 6) + 32, "Setup vid", Warn)
    else if pos == 8 then Entry(PartBefore(start, 7), PartLabel(7), Attn)
    else if pos == 9 then Entry(start, "Totality", Attn)
    else if pos == 10 then Entry(start + Div(end - start, 2), "Mid-total", Warn)
    else if pos == 11 then Entry(end, "End total", Attn)
    else if pos <= 18 then Entry(PartAfter(end, pos - 11), PartLabel(pos - 4), Attn)
    else Entry(end + AfterTotality, "End pic", Attn)
  }

  /** The first `n` events of the plan. */
  function PlanUpTo(start: int, end: int, n: nat): (p: seq<Entry>)
    requires n <= PlanLength
    ensures |p| == n
    ensures forall i :: 0 <= i < n ==> p[i] == EntryAt(start, end, i)
  {
    if n == 0 then [] else PlanUpTo(start, end, n - 1) + [EntryAt(start, end, n - 1)]
  }

  /** The plan: every event in the order `makeEvents` emplaces it. */
  function Plan(start: int, end: int): (p: seq<Entry>)
    ensures |p| == PlanLength
    ensures forall i :: 0 <= i < PlanLength ==> p[i] == EntryAt(start, end, i)
  {
    PlanUpTo(start, end, PlanLength)
  }

  /** Plan position of the `cnt`-th picture before totality: the video setup follows the sixth. */
  function PositionBefore(cnt: int): int
  {
    if cnt <= 6 then cnt else cnt + 1
  }

  /** The menu index of the event at position `pos`: two menu rows per event, counted from one. */
  function MenuIndex(pos: nat): int
  {
    2 * pos + 1
  }

  /** `std::map::emplace`: a time already present keeps its event. */
  function Emplace(tbl: map<int, Event>, t: int, e: Event): (r: map<int, Event>)
    ensures r.Keys == tbl.Keys + {t}
    ensures t in tbl ==> r == tbl
    ensures forall k :: k in tbl ==> r[k] == tbl[k]
  {
    if t in tbl then tbl else tbl[t := e]
  }

  /** The event table after emplacing the entries of `p` in order. */
  function Table(p: seq<Entry>): map<int, Event>
  {
    if p == [] then map[]
    else
      var n := |p| - 1;
      Emplace(Table(p[..n]), p[n].time, Event(p[n].text, MenuIndex(n)))
  }

  /** `addAttn(t)`: notices a minute and half a minute before, and the time signal at `t`. */
  function AttnRecords(t: int): seq<Record>
  {
    [Record(t - 60, Priority, PageSchedule, Notice),
     Record(t - 30, Priority, PageSchedule, Notice),
     Record(t, Priority, PageSchedule, Time)]
  }

  /** The scheduler records one entry asks for. */
  function AlertsOf(e: Entry): seq<Record>
  {
    match e.alerting
    case Attn => AttnRecords(e.time)
    case Warn => [Record(e.time, Priority, PageSchedule, Warning)]
  }

  /** The scheduler records the entries of `p` ask for, in order. */
  function AllAlerts(p: seq<Entry>): seq<Record>
  {
    if p == [] then []
    else
      var n := |p| - 1;
      AllAlerts(p[..n]) + AlertsOf(p[n])
  }

  /** Successive `add` calls on an ordered record list. */
  function InsertAll(rs: seq<Record>, xs: seq<Record>): seq<Record>
  {
    if xs == [] then rs
    else
      var n := |xs| - 1;
      Insert(InsertAll(rs, xs[..n]), xs[n])
  }

  // -----------------------------------------------------------------------
  // Properties of the plan and of the table.
  // -----------------------------------------------------------------------

  /** Successive insertions keep the time index in order. */
  lemma {:induction false} InsertAllSorted(rs: seq<Record>, xs: seq<Record>)
    requires Sorted(rs)
    ensures Sorted(InsertAll(rs, xs))
  {
    if xs != [] {
      var n := |xs| - 1;
      InsertAllSorted(rs, xs[..n]);
      InsertSorted(InsertAll(rs, xs[..n]), xs[n]);
    }
  }

  /** Successive insertions add exactly the inserted records. */
  lemma {:induction false} InsertAllAdds(rs: seq<Record>, xs: seq<Record>)
    ensures multiset(InsertAll(rs, xs)) == multiset(rs) + multiset(xs)
  {
    if xs != [] {
      var n := |xs| - 1;
      var pre := InsertAll(rs, xs[..n]);
      InsertAllAdds(rs, xs[..n]);
      InsertCount(pre, xs[n]);
      assert InsertAll(rs, xs) == Insert(pre, xs[n]);
      assert multiset(xs) == multiset(xs[..n]) + multiset{xs[n]} by {
        assert xs == xs[..n] + [xs[n]];
      }
    }
  }

  /** Inserting two batches is inserting their concatenation. */
  lemma {:induction false} InsertAllAppend(rs: seq<Record>, xs: seq<Record>, ys: seq<Record>)
    ensures InsertAll(InsertAll(rs, xs), ys) == InsertAll(rs, xs + ys)
  {
    var zs := xs + ys;
    if ys == [] {
      assert zs == xs;
    } else {
      var n := |ys| - 1;
      InsertAllAppend(rs, xs, ys[..n]);
      assert zs[..|zs| - 1] == xs + ys[..n];
      assert zs[|zs| - 1] == ys[n];
      calc {
        InsertAll(InsertAll(rs, xs), ys);
        Insert(InsertAll(InsertAll(rs, xs), ys[..n]), ys[n]);
        Insert(InsertAll(rs, xs + ys[..n]), ys[n]);
        Insert(InsertAll(rs, zs[..|zs| - 1]), zs[|zs| - 1]);
        InsertAll(rs, zs);
      }
    }
  }

  /** Every alert is for the schedule page, with priority 3; each entry gives one or three. */
  lemma {:induction false} AlertsShape(p: seq<Entry>)
    ensures forall r :: r in AllAlerts(p) ==> r.page == PageSchedule && r.priority == Priority
    ensures |AllAlerts(p)| == 3 * |p| - 2 * |Warnings(p)|
  {
    if p != [] {
      AlertsShape(p[..|p| - 1]);
      WarningsStep(p);
    }
  }

  /** Positions of the single warnings in `p`. */
  function Warnings(p: seq<Entry>): set<nat>
  {
    set i | 0 <= i < |p| && p[i].alerting == Warn
  }

  /** The last entry adds its own position to the warnings exactly when it is one. */
  lemma WarningsStep(p: seq<Entry>)
    requires p != []
    ensures var n := |p| - 1;
      |Warnings(p)| == |Warnings(p[..n])| + (if p[n].alerting == Warn then 1 else 0)
  {
    var n := |p| - 1;
    if p[n].alerting == Warn {
      assert Warnings(p) == Warnings(p[..n]) + {n};
    } else {
      assert Warnings(p) == Warnings(p[..n]);
    }
  }

  /** A totality's plan has 20 events: 18 call `addAttn` and 2 are single warnings, 56 alerts in all. */
  lemma PlanAlertCount(start: int, end: int)
    ensures |AllAlerts(Plan(start, end))| == 56
    ensures forall r :: r in AllAlerts(Plan(start, end)) ==> r.page == PageSchedule && r.priority == Priority
  {
    var p := Plan(start, end);
    AlertsShape(p);
    var w := Warnings(p);
    assert w == {7, 10} by {
      forall i | 0 <= i < |p| ensures i in w <==> i == 7 || i == 10 {
        assert p[i] == EntryAt(start, end, i);
      }
    }
  }

  /** Consecutive partial-phase pictures are at least 572 seconds apart. */
  lemma PartsApart(start: int, end: int, k: int)
    ensures PartBefore(start, k) + 576 <= PartBefore(start, k + 1)
    ensures PartAfter(end, k) + 572 <= PartAfter(end, k + 1)
  {
  }

  /**
   * When totality lasts at least two seconds, event times strictly increase
   * along the plan, so no `emplace` is refused.
   */
  lemma PlanIncreasing(start: int, end: int, i: nat)
    requires start + 2 <= end
    requires i + 1 < PlanLength
    ensures EntryAt(start, end, i).time < EntryAt(start, end, i + 1).time
  {
    if i <= 7 {
      PartsApart(start, end, i);
    } else if 12 <= i {
      PartsApart(start, end, i - 11);
    }
  }

  /** In a table built from strictly increasing times every entry keeps its own event. */
  lemma TableOfIncreasing(p: seq<Entry>)
    requires forall i, j :: 0 <= i < j < |p| ==> p[i].time < p[j].time
    ensures |Table(p).Keys| == |p|
    ensures forall i :: 0 <= i < |p| ==> p[i].time in Table(p) && Table(p)[p[i].time] == Event(p[i].text, MenuIndex(i))
  {
    forall i | 0 <= i < |p|
      ensures p[i].time in Table(p) && Table(p)[p[i].time] == Event(p[i].text, MenuIndex(i))
    {
      TableKeepsFirst(p, i);
    }
    TableKeys(p);
    InjectiveCount(p);
  }

  /** The table's keys are exactly the plan's times. */
  lemma {:induction false} TableKeys(p: seq<Entry>)
    ensures Table(p).Keys == set i | 0 <= i < |p| :: p[i].time
  {
    if p != [] {
      var n := |p| - 1;
      TableKeys(p[..n]);
      assert (set i | 0 <= i < |p| :: p[i].time) == (set i | 0 <= i < n :: p[..n][i].time) + {p[n].time};
    }
  }

  /**
   * The table keeps, for each time, the first event planned at it, with
   * that event's menu index.
   */
  lemma {:induction false} TableKeepsFirst(p: seq<Entry>, i: nat)
    requires i < |p|
    requires forall j :: 0 <= j < i ==> p[j].time != p[i].time
    ensures p[i].time in Table(p) && Table(p)[p[i].time] == Event(p[i].text, MenuIndex(i))
  {
    var n := |p| - 1;
    if i < n {
      TableKeepsFirst(p[..n], i);
    } else {
      TableKeys(p[..n]);
    }
  }

  /** With totality of two seconds or more the table holds all 20 events, each at its planned time. */
  lemma PlanTableComplete(start: int, end: int)
    requires start + 2 <= end
    ensures |Table(Plan(start, end)).Keys| == PlanLength
    ensures var p := Plan(start, end);
      forall i :: 0 <= i < |p| ==> (p[i].time in Table(p) && Table(p)[p[i].time] == Event(p[i].text, MenuIndex(i)))
  {
    var p := Plan(start, end);
    forall i, j | 0 <= i < j < |p| ensures p[i].time < p[j].time {
      Increasing(start, end, i, j);
    }
    TableOfIncreasing(p);
  }

  lemma {:induction false} Increasing(start: int, end: int, i: nat, j: nat)
    requires start + 2 <= end
    requires i < j < PlanLength
    ensures EntryAt(start, end, i).time < EntryAt(start, end, j).time
    decreases j - i
  {
    PlanIncreasing(start, end, i);
    if i + 1 < j {
      Increasing(start, end, i + 1, j);
    }
  }

  /**
   * A zero-length totality puts totality, mid-totality and its end at one
   * time: the table keeps "Totality" there and holds 18 events.
   */
  lemma InstantTotality(start: int)
    ensures start in Table(Plan(start, start)) && Table(Plan(start, start))[start] == Event("Totality", 19)
    ensures |Table(Plan(start, start)).Keys| == 18
  {
    var p := Plan(start, start);
    forall j | 0 <= j < 9 ensures p[j].time != p[9].time {
      StrictlyBefore(start, j, 9);
    }
    TableKeepsFirst(p, 9);
    assert p[9] == Entry(start, "Totality", Attn);
    InstantTotalityCount(start);
  }

  lemma InstantTotalityCount(start: int)
    ensures |Table(Plan(start, start)).Keys| == 18
  {
    var p := Plan(start, start);
    TableKeys(p);
    InstantOrder(start);
    DistinctCount(p);
  }

  lemma InstantOrder(start: int)
    ensures var p := Plan(start, start);
      && p[10].time == p[9].time && p[11].time == p[9].time
      && forall i, j :: 0 <= i < j < |p| && i != 10 && i != 11 && j != 10 && j != 11 ==> p[i].time < p[j].time
  {
    var p := Plan(start, start);
    forall i, j | 0 <= i < j < |p| && i != 10 && i != 11 && j != 10 && j != 11
      ensures p[i].time < p[j].time
    {
      StrictlyBefore(start, i, j);
    }
  }

  lemma {:induction false} StrictlyBefore(start: int, i: nat, j: nat)
    requires i < j < PlanLength && i != 10 && i != 11 && j != 10 && j != 11
    ensures EntryAt(start, start, i).time < EntryAt(start, start, j).time
    decreases j - i
  {
    var k := NextDistinct(i);
    NextLater(start, i);
    if k < j {
      StrictlyBefore(start, k, j);
    }
  }

  /** The plan position after `i`, skipping the two that repeat the totality's start. */
  function NextDistinct(i: nat): nat
  {
    if i == 9 then 12 else i + 1
  }

  /** With `end` at `start`, each event outside positions 10 and 11 is before the next such one. */
  lemma NextLater(start: int, i: nat)
    requires i + 1 < PlanLength && i != 10 && i != 11
    ensures EntryAt(start, start, i).time < EntryAt(start, start, NextDistinct(i)).time
  {
    if i <= 7 { PartsApart(start, start, i); }
    if 12 <= i { PartsApart(start, start, i - 11); }
    if i == 9 { PartsApart(start, start, 1); }
  }

  /** Twenty times of which positions 10 and 11 repeat position 9 and the rest are distinct make a set of eighteen. */
  lemma DistinctCount(p: seq<Entry>)
    requires |p| == PlanLength
    requires p[10].time == p[9].time && p[11].time == p[9].time
    requires forall i, j :: 0 <= i < j < |p| && i != 10 && i != 11 && j != 10 && j != 11 ==> p[i].time < p[j].time
    ensures |set i | 0 <= i < |p| :: p[i].time| == 18
  {
    var others := set i | 0 <= i < |p| && i != 10 && i != 11 :: p[i].time;
    assert (set i | 0 <= i < |p| :: p[i].time) == others;
    var q := p[..10] + p[12..];
    assert |q| == 18;
    assert others == set i | 0 <= i < |q| :: q[i].time by {
      forall i | 0 <= i < |p| && i != 10 && i != 11 ensures p[i].time == q[if i < 10 then i else i - 2].time { }
      forall i | 0 <= i < |q| ensures q[i].time == p[if i < 10 then i else i + 2].time { }
    }
    forall i, j | 0 <= i < j < |q| ensures q[i].time < q[j].time {
      var a := if i < 10 then i else i + 2;
      var b := if j < 10 then j else j + 2;
      assert q[i] == p[a] && q[j] == p[b];
    }
    InjectiveCount(q);
  }

  lemma {:induction false} InjectiveCount(q: seq<Entry>)
    requires forall i, j :: 0 <= i < j < |q| ==> q[i].time < q[j].time
    ensures |set i | 0 <= i < |q| :: q[i].time| == |q|
  {
    if q != [] {
      var n := |q| - 1;
      InjectiveCount(q[..n]);
      var s := set i | 0 <= i < n :: q[..n][i].time;
      assert (set i | 0 <= i < |q| :: q[i].time) == s + {q[n].time};
      assert q[n].time !in s;
    }
  }

  // -----------------------------------------------------------------------
  // The page object.
  // -----------------------------------------------------------------------

  /** No totality known yet: the constructor's value for the three times. */
  const NoTime := EndOfDay

  /** `SchedulePage`: the event table, the totality it was made for, and the scheduler it feeds. */
  class SchedulePage {
    var evtbl: map<int, Event>
    var startT: int
    var endT: int
    var shownT: int
    const attn: Scheduler

    constructor(a: Scheduler)
      ensures attn == a && evtbl == map[]
      ensures startT == NoTime && endT == NoTime && shownT == NoTime
    {
      attn := a;
      evtbl := map[];
      startT := NoTime;
      endT := NoTime;
      shownT := NoTime;
    }

    /** `addAttn`. */
    method AddAttn(when: int)
      requires attn.Valid()
      modifies attn
      ensures attn.Valid()
      ensures attn.records == InsertAll(old(attn.records), AttnRecords(when))
      ensures attn.page == old(attn.page) && attn.testTimeOffset == old(attn.testTimeOffset)
    {
      ghost var xs := AttnRecords(when);
      attn.Add(when - 60, Priority, PageSchedule, Notice);
      assert xs[..1][..0] == [];
      assert attn.records == InsertAll(old(attn.records), xs[..1]);
      attn.Add(when - 30, Priority, PageSchedule, Notice);
      assert xs[..2][..1] == xs[..1];
      assert attn.records == InsertAll(old(attn.records), xs[..2]);
      attn.Add(when, Priority, PageSchedule, Time);
      assert xs[..3][..2] == xs[..2] && xs[..3] == xs;
    }

    /** The alerts one entry asks for: `addAttn`, or a single warning. */
    method AddAlerts(e: Entry)
      requires attn.Valid()
      modifies attn
      ensures attn.Valid()
      ensures attn.records == InsertAll(old(attn.records), AlertsOf(e))
      ensures attn.page == old(attn.page) && attn.testTimeOffset == old(attn.testTimeOffset)
    {
      match e.alerting {
        case Attn =>
          AddAttn(e.time);
        case Warn =>
          attn.Add(e.time, Priority, PageSchedule, Warning);
          assert AlertsOf(e)[..0] == [];
      }
    }

    /** One plan entry: emplace it under menu index `midx` and hand its alerts to the scheduler. */
    method Emit(tbl: map<int, Event>, ghost start: int, ghost end: int, ghost pos: nat, ghost base: seq<Record>,
      e: Entry, midx: int)
      returns (tbl': map<int, Event>)
      requires pos < PlanLength && e == EntryAt(start, end, pos)
      requires attn.Valid()
      requires midx == MenuIndex(pos)
      requires tbl == Table(PlanUpTo(start, end, pos))
      requires attn.records == InsertAll(base, AllAlerts(PlanUpTo(start, end, pos)))
      modifies attn
      ensures attn.Valid()
      ensures tbl' == Table(PlanUpTo(start, end, pos + 1))
      ensures attn.records == InsertAll(base, AllAlerts(PlanUpTo(start, end, pos + 1)))
      ensures attn.page == old(attn.page) && attn.testTimeOffset == old(attn.testTimeOffset)
    {
      PlanStep(start, end, pos, base);
      tbl' := Emplace(tbl, e.time, Event(e.text, midx));
      AddAlerts(e);
    }

    /** The first loop of `makeEvents`: the seven pictures before totality and the video setup. */
    method PartsBeforeTotality(tbl: map<int, Event>, ghost base: seq<Record>, start: int, end: int, midx: int)
      returns (tbl': map<int, Event>, midx': int)
      requires attn.Valid()
      requires midx == MenuIndex(0)
      requires tbl == Table(PlanUpTo(start, end, 1)) && attn.records == InsertAll(base, AllAlerts(PlanUpTo(start, end, 1)))
      modifies attn
      ensures attn.Valid() && midx' == MenuIndex(8)
      ensures tbl' == Table(PlanUpTo(start, end, 9)) && attn.records == InsertAll(base, AllAlerts(PlanUpTo(start, end, 9)))
      ensures attn.page == old(attn.page) && attn.testTimeOffset == old(attn.testTimeOffset)
    {
      tbl', midx' := tbl, midx;
      var t: real := (start - BeforeTotality) as real;
      var cnt := 1;
      t := t + BeforeTotality as real / 8.0;
      while cnt < 8
        invariant 1 <= cnt <= 8 && midx' == MenuIndex(PositionBefore(cnt) - 1)
        invariant t == (8 * (start - BeforeTotality) + BeforeTotality * cnt) as real / 8.0
        invariant tbl' == Table(PlanUpTo(start, end, PositionBefore(cnt)))
        invariant attn.Valid()
        invariant attn.records == InsertAll(base, AllAlerts(PlanUpTo(start, end, PositionBefore(cnt))))
        invariant attn.page == old(attn.page) && attn.testTimeOffset == old(attn.testTimeOffset)
      {
        tbl', midx' := PictureBefore(tbl', base, start, end, cnt, t, midx');
        cnt := cnt + 1;
        t := t + BeforeTotality as real / 8.0;
      }
    }

    /** One pass of the first loop: picture `cnt`, and after the sixth the video setup. */
    method PictureBefore(tbl: map<int, Event>, ghost base: seq<Record>, start: int, end: int, cnt: int, t: real, midx: int)
      returns (tbl': map<int, Event>, midx': int)
      requires 1 <= cnt <= 7 && midx == MenuIndex(PositionBefore(cnt) - 1)
      requires t == (8 * (start - BeforeTotality) + BeforeTotality * cnt) as real / 8.0
      requires attn.Valid()
      requires tbl == Table(PlanUpTo(start, end, PositionBefore(cnt)))
      requires attn.records == InsertAll(base, AllAlerts(PlanUpTo(start, end, PositionBefore(cnt))))
      modifies attn
      ensures midx' == MenuIndex(PositionBefore(cnt + 1) - 1)
      ensures attn.Valid() && tbl' == Table(PlanUpTo(start, end, PositionBefore(cnt + 1)))
      ensures attn.records == InsertAll(base, AllAlerts(PlanUpTo(start, end, PositionBefore(cnt + 1))))
      ensures attn.page == old(attn.page) && attn.testTimeOffset == old(attn.testTimeOffset)
    {
      PartBeforeEntry(start, end, cnt, t);
      midx' := midx + 2;
      tbl' := Emit(tbl, start, end, PositionBefore(cnt), base, Entry(Trunc(t), PartLabel(cnt), Attn), midx');
      if cnt == 6 {
        tbl', midx' := SetupVideo(tbl', base, start, end, t, midx');
      }
    }

    /** The video setup emplaced after the sixth picture, 32 seconds after it. */
    method SetupVideo(tbl: map<int, Event>, ghost base: seq<Record>, start: int, end: int, t: real, midx: int)
      returns (tbl': map<int, Event>, midx': int)
      requires midx == MenuIndex(6)
      requires t == (8 * (start - BeforeTotality) + BeforeTotality * 6) as real / 8.0
      requires attn.Valid()
      requires tbl == Table(PlanUpTo(start, end, 7))
      requires attn.records == InsertAll(base, AllAlerts(PlanUpTo(start, end, 7)))
      modifies attn
      ensures midx' == MenuIndex(7)
      ensures attn.Valid() && tbl' == Table(PlanUpTo(start, end, 8))
      ensures attn.records == InsertAll(base, AllAlerts(PlanUpTo(start, end, 8)))
      ensures attn.page == old(attn.page) && attn.testTimeOffset == old(attn.testTimeOffset)
    {
      PartBeforeEntry(start, end, 6, t);
      midx' := midx + 2;
      tbl' := Emit(tbl, start, end, 7, base, Entry(Trunc(t) + 32, "Setup vid", Warn), midx');
    }

    /** The second loop of `makeEvents`: the seven pictures after totality. */
    method PartsAfterTotality(tbl: map<int, Event>, ghost base: seq<Record>, start: int, end: int, midx: int)
      returns (tbl': map<int, Event>, midx': int)
      requires attn.Valid()
      requires midx == MenuIndex(11)
      requires tbl == Table(PlanUpTo(start, end, 12)) && attn.records == InsertAll(base, AllAlerts(PlanUpTo(start, end, 12)))
      modifies attn
      ensures attn.Valid() && midx' == MenuIndex(18)
      ensures tbl' == Table(PlanUpTo(start, end, 19)) && attn.records == InsertAll(base, AllAlerts(PlanUpTo(start, end, 19)))
      ensures attn.page == old(attn.page) && attn.testTimeOffset == old(attn.testTimeOffset)
    {
      tbl', midx' := tbl, midx;
      var cnt := 8;
      var t := end as real + AfterTotality as real / 8.0;
      while cnt < 15
        invariant 8 <= cnt <= 15 && midx' == MenuIndex(cnt + 3)
        invariant t == (8 * end + AfterTotality * (cnt - 7)) as real / 8.0
        invariant tbl' == Table(PlanUpTo(start, end, cnt + 4))
        invariant attn.Valid()
        invariant attn.records == InsertAll(base, AllAlerts(PlanUpTo(start, end, cnt + 4)))
        invariant attn.page == old(attn.page) && attn.testTimeOffset == old(attn.testTimeOffset)
      {
        PartAfterEntry(start, end, cnt, t);
        midx' := midx' + 2;
        tbl' := Emit(tbl', start, end, cnt + 4, base, Entry(Trunc(t), PartLabel(cnt), Attn), midx');
        cnt := cnt + 1;
        t := t + AfterTotality as real / 8.0;
      }
    }

    /** The part of `makeEvents` that fills the table in a totality. */
    method Build(start: int, end: int) returns (tbl: map<int, Event>)
      requires attn.Valid()
      modifies attn
      ensures attn.Valid()
      ensures attn.page == old(attn.page) && attn.testTimeOffset == old(attn.testTimeOffset)
      ensures tbl == Table(Plan(start, end)) && attn.records == InsertAll(old(attn.records), AllAlerts(Plan(start, end)))
    {
      ghost var base := attn.records;
      var midx;
      tbl, midx := BuildToTotality(start, end, base);
      tbl := BuildFromTotality(tbl, start, end, base, midx);
      assert PlanUpTo(start, end, PlanLength) == Plan(start, end);
    }

    /** The first half of the plan: the pictures before totality, up to and including the totality's start. */
    method BuildToTotality(start: int, end: int, ghost base: seq<Record>) returns (tbl: map<int, Event>, midx: int)
      requires attn.Valid() && attn.records == base
      modifies attn
      ensures attn.Valid() && midx == MenuIndex(9)
      ensures attn.page == old(attn.page) && attn.testTimeOffset == old(attn.testTimeOffset)
      ensures tbl == Table(PlanUpTo(start, end, 10)) && attn.records == InsertAll(base, AllAlerts(PlanUpTo(start, end, 10)))
    {
      tbl := map[];
      midx := 0;
      midx := midx + 1;
      FixedEntries(start, end);
      tbl := Emit(tbl, start, end, 0, base, Entry(start - BeforeTotality, "Start pic", Attn), midx);
      tbl, midx := PartsBeforeTotality(tbl, base, start, end, midx);
      midx := midx + 2;
      tbl := Emit(tbl, start, end, 9, base, Entry(start, "Totality", Attn), midx);
    }

    /** The second half of the plan: mid-totality, the end of totality and the pictures after it. */
    method BuildFromTotality(tbl: map<int, Event>, start: int, end: int, ghost base: seq<Record>, midx: int)
      returns (tbl': map<int, Event>)
      requires attn.Valid() && midx == MenuIndex(9)
      requires tbl == Table(PlanUpTo(start, end, 10)) && attn.records == InsertAll(base, AllAlerts(PlanUpTo(start, end, 10)))
      modifies attn
      ensures attn.Valid()
      ensures attn.page == old(attn.page) && attn.testTimeOffset == old(attn.testTimeOffset)
      ensures tbl' == Table(PlanUpTo(start, end, PlanLength))
      ensures attn.records == InsertAll(base, AllAlerts(PlanUpTo(start, end, PlanLength)))
    {
      var m := midx;
      FixedEntries(start, end);
      m := m + 2;
      tbl' := Emit(tbl, start, end, 10, base, Entry(start + Div(end - start, 2), "Mid-total", Warn), m);
      m := m + 2;
      tbl' := Emit(tbl', start, end, 11, base, Entry(end, "End total", Attn), m);
      tbl', m := PartsAfterTotality(tbl', base, start, end, m);
      tbl' := Emit(tbl', start, end, 19, base, Entry(end + AfterTotality, "End pic", Attn), m + 2);
    }

    /**
     * `makeEvents`: drop the old table and every scheduler record for this
     * page; in a totality, build the table and the alerts of the plan and
     * remember the totality.
     */
    method MakeEvents(di: DisplayInfo)
      requires attn.Valid()
      modifies this, attn
      ensures attn.Valid()
      ensures attn.page == old(attn.page) && attn.testTimeOffset == old(attn.testTimeOffset)
      ensures evtbl == EventsFor(di)
      ensures attn.records == InsertAll(WithoutPage(old(attn.records), PageSchedule), AlertsFor(di))
      ensures di.inTotality ==> startT == di.start && endT == di.end
      ensures !di.inTotality ==> startT == old(startT) && endT == old(endT)
      ensures shownT == old(shownT)
    {
      evtbl := map[];
      attn.Remove(PageSchedule);
      if di.inTotality {
        ghost var shown := shownT;
        var tbl := Build(di.start, di.end);
        assert shownT == shown;
        evtbl := tbl;
        endT := di.end;
        startT := di.start;
      }
    }

    /** `show`: the table is rebuilt every time the page is shown; records of other pages are kept. */
    method Show(di: DisplayInfo)
      requires attn.Valid()
      modifies this, attn
      ensures attn.Valid()
      ensures attn.page == old(attn.page) && attn.testTimeOffset == old(attn.testTimeOffset)
      ensures evtbl == EventsFor(di)
      ensures attn.records == InsertAll(WithoutPage(old(attn.records), PageSchedule), AlertsFor(di))
      ensures forall r: Record :: (multiset(attn.records)[r] ==
        if r.page == PageSchedule then multiset(AlertsFor(di))[r] else multiset(old(attn.records))[r])
      ensures di.inTotality ==> startT == di.start && endT == di.end
      ensures !di.inTotality ==> startT == old(startT) && endT == old(endT)
      ensures shownT == old(shownT)
    {
      MakeEvents(di);
      PlanAlertCount(di.start, di.end);
      ReplacePageRecords(old(attn.records), AlertsFor(di), PageSchedule);
    }

    /** `update`: the table is rebuilt when totality changed while the fix is good. */
    method Update(di: DisplayInfo)
      requires attn.Valid()
      modifies this, attn
      ensures attn.Valid()
      ensures attn.page == old(attn.page) && attn.testTimeOffset == old(attn.testTimeOffset)
      ensures shownT == old(shownT)
      ensures di.goodfix && di.totchg ==> evtbl == EventsFor(di)
      ensures di.goodfix && di.totchg ==>
        attn.records == InsertAll(WithoutPage(old(attn.records), PageSchedule), AlertsFor(di))
      ensures di.goodfix && di.totchg && di.inTotality ==> startT == di.start && endT == di.end
      ensures !(di.goodfix && di.totchg && di.inTotality) ==> startT == old(startT) && endT == old(endT)
      ensures !(di.goodfix && di.totchg) ==> evtbl == old(evtbl) && attn.records == old(attn.records)
    {
      if di.goodfix && di.totchg {
        MakeEvents(di);
      }
    }
  }

  /** The event table `makeEvents` leaves: the plan's in a totality, empty otherwise. */
  function EventsFor(di: DisplayInfo): map<int, Event>
  {
    if di.inTotality then Table(Plan(di.start, di.end)) else map[]
  }

  /** The alerts `makeEvents` hands to the scheduler: the plan's in a totality, none otherwise. */
  function AlertsFor(di: DisplayInfo): seq<Record>
  {
    if di.inTotality then AllAlerts(Plan(di.start, di.end)) else []
  }

  /** Emplacing one more entry. */
  lemma TableAppend(p: seq<Entry>, e: Entry)
    ensures Table(p + [e]) == Emplace(Table(p), e.time, Event(e.text, MenuIndex(|p|)))
  {
    assert (p + [e])[..|p|] == p;
  }

  /** One more plan entry: the table gains one emplacement and the records one entry's alerts. */
  lemma PlanStep(start: int, end: int, pos: nat, base: seq<Record>)
    requires pos < PlanLength
    ensures var p, e := PlanUpTo(start, end, pos), EntryAt(start, end, pos);
      && Table(PlanUpTo(start, end, pos + 1)) == Emplace(Table(p), e.time, Event(e.text, MenuIndex(pos)))
      && InsertAll(base, AllAlerts(PlanUpTo(start, end, pos + 1))) == InsertAll(InsertAll(base, AllAlerts(p)), AlertsOf(e))
  {
    var p, e := PlanUpTo(start, end, pos), EntryAt(start, end, pos);
    assert PlanUpTo(start, end, pos + 1) == p + [e];
    TableAppend(p, e);
    AlertsAppend(p, e);
    InsertAllAppend(base, AllAlerts(p), AlertsOf(e));
  }

  /** The alerts of one more entry. */
  lemma AlertsAppend(p: seq<Entry>, e: Entry)
    ensures AllAlerts(p + [e]) == AllAlerts(p) + AlertsOf(e)
  {
    assert (p + [e])[..|p|] == p;
  }

  /** The entries `makeEvents` emplaces outside its two loops. */
  lemma FixedEntries(start: int, end: int)
    ensures EntryAt(start, end, 0) == Entry(start - BeforeTotality, "Start pic", Attn)
    ensures EntryAt(start, end, 9) == Entry(start, "Totality", Attn)
    ensures EntryAt(start, end, 10) == Entry(start + Div(end - start, 2), "Mid-total", Warn)
    ensures EntryAt(start, end, 11) == Entry(end, "End total", Attn)
    ensures EntryAt(start, end, 19) == Entry(end + AfterTotality, "End pic", Attn)
  {
  }

  /** The accumulator of the first loop gives the plan's picture before totality. */
  lemma PartBeforeEntry(start: int, end: int, cnt: int, t: real)
    requires 1 <= cnt <= 7
    requires t == (8 * (start - BeforeTotality) + BeforeTotality * cnt) as real / 8.0
    ensures EntryAt(start, end, if cnt == 7 then 8 else cnt) == Entry(Trunc(t), PartLabel(cnt), Attn)
    ensures cnt == 6 ==> EntryAt(start, end, 7) == Entry(Trunc(t) + 32, "Setup vid", Warn)
  {
    TruncOfEighths(8 * (start - BeforeTotality) + BeforeTotality * cnt);
  }

  /** The accumulator of the second loop gives the plan's picture after totality. */
  lemma PartAfterEntry(start: int, end: int, cnt: int, t: real)
    requires 8 <= cnt <= 14
    requires t == (8 * end + AfterTotality * (cnt - 7)) as real / 8.0
    ensures EntryAt(start, end, cnt + 4) == Entry(Trunc(t), PartLabel(cnt), Attn)
  {
    TruncOfEighths(8 * end + AfterTotality * (cnt - 7));
  }

  /**
   * Removing a page's records and inserting a batch for that page leaves
   * exactly the batch for the page and every other page's records as they were.
   */
  lemma ReplacePageRecords(before: seq<Record>, alerts: seq<Record>, p: int)
    requires forall r :: r in alerts ==> r.page == p
    ensures var after := InsertAll(WithoutPage(before, p), alerts);
      forall r: Record :: multiset(after)[r] == if r.page == p then multiset(alerts)[r] else multiset(before)[r]
  {
    var kept := WithoutPage(before, p);
    var after := InsertAll(kept, alerts);
    InsertAllAdds(kept, alerts);
    forall r: Record
      ensures multiset(after)[r] == if r.page == p then multiset(alerts)[r] else multiset(before)[r]
    {
      assert multiset(after)[r] == multiset(kept)[r] + multiset(alerts)[r];
      if r.page != p {
        assert r !in alerts;
      }
    }
  }

  /** Replacing a page's records twice by the same batch is replacing them once. */
  lemma ReplaceTwice(rs: seq<Record>, alerts: seq<Record>, p: int)
    requires forall r :: r in alerts ==> r.page == p
    ensures var once := InsertAll(WithoutPage(rs, p), alerts);
      multiset(InsertAll(WithoutPage(once, p), alerts)) == multiset(once)
  {
    var once := InsertAll(WithoutPage(rs, p), alerts);
    var twice := InsertAll(WithoutPage(once, p), alerts);
    ReplacePageRecords(rs, alerts, p);
    ReplacePageRecords(once, alerts, p);
    forall r: Record
      ensures multiset(twice)[r] == multiset(once)[r]
    {
    }
    assert multiset(twice) == multiset(once);
  }

  /** Rebuilding the table a second time for the same totality leaves the same records: no alert is doubled. */
  lemma RebuildIsIdempotent(rs: seq<Record>, di: DisplayInfo)
    ensures var once := InsertAll(WithoutPage(rs, PageSchedule), AlertsFor(di));
      multiset(InsertAll(WithoutPage(once, PageSchedule), AlertsFor(di))) == multiset(once)
  {
    PlanAlertCount(di.start, di.end);
    ReplaceTwice(rs, AlertsFor(di), PageSchedule);
  }
}
