/**
 * The alert scheduler (`Attention`): a collection of alert records kept in
 * time order, producers that add and remove records, and one iteration of the
 * worker that drops records already past, picks the next one, and either
 * waits or fires it by posting its page and playing its sound.
 *
 * The worker's thread, mutex and condition variable are not modelled; one
 * iteration of its loop is the method `Scheduler.Step`, given the clock's
 * reading. The collection is modelled by its time-ordered index: a sequence
 * sorted by time in which records of equal time keep their insertion order.
 */
module Attention {
  import opened CInt

  /** `Attention::Audible`; `Total` is the number of sound kinds. */
  datatype Audible = NoSound | Notice | Time | Warning

  const Total: nat := 4

  /** The enumerator value of each sound kind. */
  function Ordinal(a: Audible): (i: nat)
    ensures i < Total
  {
    match a
    case NoSound => 0
    case Notice => 1
    case Time => 2
    case Warning => 3
  }

  /** The sound kind with a given enumerator value. */
  function FromOrdinal(i: nat): (a: Audible)
    requires i < Total
    ensures Ordinal(a) == i
  {
    if i == 0 then NoSound else if i == 1 then Notice else if i == 2 then Time else Warning
  }

  /** Sound kinds and the enumerator values 0..3 correspond one to one. */
  lemma OrdinalRoundTrip(a: Audible)
    ensures FromOrdinal(Ordinal(a)) == a
  {
  }

  /** `page` when no page change is pending. */
  const NoPage: int := -1
  /** `page` once shutdown has been requested. */
  const ShutdownPage: int := 42

  /** `buzlen`: the milliseconds each sound's alert is started early. */
  const BuzLenTable: seq<nat> := [0, 450, 3100, 400]

  function BuzLen(a: Audible): (ms: nat)
  {
    BuzLenTable[Ordinal(a)]
  }

  /** One stretch of the buzzer output, on or off, in milliseconds. */
  datatype Segment = On(ms: nat) | Off(ms: nat)

  /**
   * What the worker does with the buzzer for each sound: the sleeps between
   * switching the output. A switch-off with no sleep after it ends the sound.
   */
  function Waveform(a: Audible): seq<Segment>
  {
    match a
    case NoSound => []
    case Notice => [On(150), Off(150), On(150)]
    case Time => [On(200), Off(800), On(200), Off(800), On(200), Off(800), On(1000)]
    case Warning => [On(400)]
  }

  /** Total milliseconds a waveform keeps the worker busy. */
  function Duration(w: seq<Segment>): nat
  {
    if w == [] then 0 else w[0].ms + Duration(w[1..])
  }

  /** The number of beeps, that is of "on" stretches. */
  function Beeps(w: seq<Segment>): nat
  {
    if w == [] then 0 else (if w[0].On? then 1 else 0) + Beeps(w[1..])
  }

  /** The back-off table matches the waveform for `Notice` (two beeps) and `Warning`. */
  lemma WaveformAgainstBackOff()
    ensures Duration(Waveform(NoSound)) == BuzLen(NoSound) == 0
    ensures Duration(Waveform(Notice)) == BuzLen(Notice) == 450 && Beeps(Waveform(Notice)) == 2
    ensures Duration(Waveform(Warning)) == BuzLen(Warning) == 400 && Beeps(Waveform(Warning)) == 1
  {
  }

  /**
   * The `Time` waveform lasts 4000 ms against a back-off of 3100 ms, so its
   * final long tone starts 100 ms before the alert's time.
   */
  lemma TimeOutlastsBackOff()
    ensures Duration(Waveform(Time)) == 4000 && BuzLen(Time) == 3100 && Beeps(Waveform(Time)) == 4
    ensures Duration(Waveform(Time)[..6]) == 3000
  {
    var w := Waveform(Time);
    assert w == w[..6] + [On(1000)];
    DurationAppend(w[..6], [On(1000)]);
  }

  /** The duration of two waveforms played one after the other. */
  lemma {:induction false} DurationAppend(a: seq<Segment>, b: seq<Segment>)
    ensures Duration(a + b) == Duration(a) + Duration(b)
  {
    if a != [] {
      assert (a + b)[1..] == a[1..] + b;
      DurationAppend(a[1..], b);
    } else {
      assert a + b == b;
    }
  }

  /** `Attention::Record`. */
  datatype Record = Record(time: int, priority: int, page: int, sound: Audible)

  /** The time index's order: non-decreasing times. */
  predicate Sorted(rs: seq<Record>)
  {
    forall i, j :: 0 <= i < j < |rs| ==> rs[i].time <= rs[j].time
  }

  /**
   * Where the time index puts a new record of time `t`: after every record
   * whose time is at most `t`, so equal times keep their insertion order.
   */
  function UpperBound(rs: seq<Record>, t: int): (k: nat)
    requires Sorted(rs)
    ensures k <= |rs|
    ensures forall i :: 0 <= i < k ==> rs[i].time <= t
    ensures forall i :: k <= i < |rs| ==> rs[i].time > t
  {
    if rs == [] || rs[0].time > t then 0 else 1 + UpperBound(rs[1..], t)
  }

  /**
   * The collection after `emplace`: the new record goes after every record
   * whose time is at most its own.
   */
  function Insert(rs: seq<Record>, r: Record): (res: seq<Record>)
    ensures |res| == |rs| + 1
  {
    if rs == [] || rs[0].time > r.time then [r] + rs
    else [rs[0]] + Insert(rs[1..], r)
  }

  /** `emplace` adds exactly the one record. */
  lemma {:induction false} InsertCount(rs: seq<Record>, r: Record)
    ensures multiset(Insert(rs, r)) == multiset(rs) + multiset{r}
  {
    if !(rs == [] || rs[0].time > r.time) {
      InsertCount(rs[1..], r);
      assert rs == [rs[0]] + rs[1..];
    }
  }

  /** `emplace` keeps the time index in order. */
  lemma {:induction false} InsertSorted(rs: seq<Record>, r: Record)
    requires Sorted(rs)
    ensures Sorted(Insert(rs, r))
  {
    if !(rs == [] || rs[0].time > r.time) {
      var rest := Insert(rs[1..], r);
      InsertSorted(rs[1..], r);
      InsertCount(rs[1..], r);
      NotBefore(rs, r, rest);
      assert Insert(rs, r) == [rs[0]] + rest;
    }
  }

  /** Every record of the rest of the insertion is at least as late as the first record. */
  lemma NotBefore(rs: seq<Record>, r: Record, rest: seq<Record>)
    requires Sorted(rs) && rs != [] && rs[0].time <= r.time
    requires multiset(rest) == multiset(rs[1..]) + multiset{r}
    ensures forall j :: 0 <= j < |rest| ==> rs[0].time <= rest[j].time
  {
    forall j | 0 <= j < |rest|
      ensures rs[0].time <= rest[j].time
    {
      var x := rest[j];
      assert x in multiset(rest);
      if x != r {
        assert x in rs[1..];
      }
    }
  }

  /** `Insert` puts the new record at the upper bound of its time. */
  lemma {:induction false} InsertAtUpperBound(rs: seq<Record>, r: Record)
    requires Sorted(rs)
    ensures Insert(rs, r) == rs[..UpperBound(rs, r.time)] + [r] + rs[UpperBound(rs, r.time)..]
  {
    if rs != [] && rs[0].time <= r.time {
      InsertAtUpperBound(rs[1..], r);
      assert rs[1..][..UpperBound(rs[1..], r.time)] == rs[1..UpperBound(rs, r.time)];
    }
  }

  /** The collection after erasing the page index's range for page `p`. */
  function WithoutPage(rs: seq<Record>, p: int): (res: seq<Record>)
    ensures forall x :: x in res ==> x in rs
    ensures forall x :: multiset(res)[x] == if x.page == p then 0 else multiset(rs)[x]
    ensures Sorted(rs) ==> Sorted(res)
  {
    if rs == [] then []
    else
      var tail := WithoutPage(rs[1..], p);
      assert rs == [rs[0]] + rs[1..];
      if rs[0].page == p then tail
      else
        ConsSorted(rs, tail);
        [rs[0]] + tail
  }

  /** A sorted index's first record before records taken from the rest stays in order. */
  lemma ConsSorted(rs: seq<Record>, tail: seq<Record>)
    requires rs != [] && (Sorted(rs) ==> Sorted(tail))
    requires forall x :: x in tail ==> x in rs[1..]
    ensures Sorted(rs) ==> Sorted([rs[0]] + tail)
  {
    if Sorted(rs) {
      forall j | 0 <= j < |tail|
        ensures rs[0].time <= tail[j].time
      {
        assert tail[j] in rs[1..];
      }
    }
  }

  /**
   * The worker's first loop: erase from the front of the time index while
   * the record's time is before `nowSec`.
   */
  function DropPast(rs: seq<Record>, nowSec: int): (res: seq<Record>)
    ensures |res| <= |rs|
    ensures res != [] ==> res[0].time >= nowSec
    ensures Sorted(rs) ==> Sorted(res)
  {
    if rs != [] && rs[0].time - nowSec < 0 then DropPast(rs[1..], nowSec) else rs
  }

  /**
   * Erasing the time index's range for time `t` when `t` is the earliest
   * time present: the leading records of that time.
   */
  function DropTime(rs: seq<Record>, t: int): (res: seq<Record>)
    ensures |res| <= |rs|
    ensures res != [] ==> res[0].time != t
    ensures Sorted(rs) ==> Sorted(res)
  {
    if rs != [] && rs[0].time == t then DropTime(rs[1..], t) else rs
  }

  /**
   * The record the worker picks: it has the earliest time, the lowest
   * priority number among the records of that time, and no record of that
   * time before it in the index has the same priority.
   */
  predicate IsChoice(rs: seq<Record>, c: nat)
  {
    && c < |rs|
    && rs[c].time == rs[0].time
    && (forall j :: 0 <= j < |rs| && rs[j].time == rs[0].time ==> rs[c].priority <= rs[j].priority)
    && (forall j :: 0 <= j < c ==> rs[c].priority < rs[j].priority)
  }

  /**
   * The worker's second loop: walk the records sharing the first record's
   * time, moving to a record only if its priority number is strictly lower.
   */
  function ChooseFrom(rs: seq<Record>, best: nat, next: nat): (c: nat)
    requires Sorted(rs)
    requires best < next <= |rs|
    requires forall j :: 0 <= j < next ==> rs[j].time == rs[0].time
    requires forall j :: 0 <= j < next ==> rs[best].priority <= rs[j].priority
    requires forall j :: 0 <= j < best ==> rs[best].priority < rs[j].priority
    ensures IsChoice(rs, c)
    decreases |rs| - next
  {
    if next < |rs| && rs[next].time == rs[best].time then
      ChooseFrom(rs, if rs[next].priority < rs[best].priority then next else best, next + 1)
    else
      best
  }

  function Choose(rs: seq<Record>): (c: nat)
    requires Sorted(rs) && rs != []
    ensures IsChoice(rs, c)
  {
    ChooseFrom(rs, 0, 1)
  }

  /** At most one record meets the worker's choice rule. */
  lemma ChoiceIsUnique(rs: seq<Record>, a: nat, b: nat)
    requires IsChoice(rs, a) && IsChoice(rs, b)
    ensures a == b
  {
  }

  /** The seconds and the milliseconds of the worker's "now": the clock plus the test offset. */
  function NowSeconds(clockUs: int, offset: int): int
  {
    Div(clockUs + offset * 1000000, 1000000)
  }

  function NowMillis(clockUs: int, offset: int): int
  {
    Div(clockUs + offset * 1000000, 1000)
  }

  /** How long the worker waits before firing record `r`: its time less "now" and the sound's back-off. */
  function Delay(r: Record, nowMs: int): int
  {
    r.time * 1000 - nowMs - BuzLen(r.sound)
  }

  /** A record is fired when less than 16 ms remain before its sound must start. */
  const FireWindowMs: int := 16

  /** What one iteration of the worker does. */
  datatype StepResult =
    | Exited                                          // shutdown seen: the worker returns
    | Idle                                            // no records left: wait for a change
    | WaitFor(delayMs: int)                           // wait this long, or until a change
    | Fire(time: int, page: int, sound: Audible)      // post the page and play the sound

  /** The outcome of one worker iteration on the scheduler's state. */
  datatype Tick = Tick(result: StepResult, records: seq<Record>, page: int)

  /**
   * One iteration of the worker loop: stop on the shutdown value; drop past
   * records; with none left, wait idle; otherwise choose the next record and
   * either fire it (post its page, erase every record of its time) or wait.
   */
  function StepSpec(rs: seq<Record>, page: int, nowSec: int, nowMs: int): Tick
    requires Sorted(rs)
  {
    if page == ShutdownPage then Tick(Exited, rs, page)
    else
      var live := DropPast(rs, nowSec);
      if live == [] then Tick(Idle, live, page)
      else
        var r := live[Choose(live)];
        var d := Delay(r, nowMs);
        if d < FireWindowMs then Tick(Fire(r.time, r.page, r.sound), DropTime(live, r.time), r.page)
        else Tick(WaitFor(d), live, page)
  }

  // -----------------------------------------------------------------------
  // Properties of the collection operations.
  // -----------------------------------------------------------------------

  /** `emplace` adds the record after every record of the same time already present. */
  lemma InsertKeepsEqualTimeOrder(rs: seq<Record>, r: Record, i: nat)
    requires Sorted(rs) && i < |rs| && rs[i].time == r.time
    ensures var res := Insert(rs, r); var k := UpperBound(rs, r.time);
      i < k && res[i] == rs[i] && res[k] == r
  {
    InsertAtUpperBound(rs, r);
  }

  /** Records may share a time and a page: adding a copy of a present record keeps both. */
  lemma {:induction false} DuplicatesKept(rs: seq<Record>, r: Record)
    requires r in rs
    ensures multiset(Insert(rs, r))[r] == multiset(rs)[r] + 1 >= 2
  {
    InsertCount(rs, r);
  }

  /** After removing page `p` nothing for page `p` remains and everything else does. */
  lemma RemoveExact(rs: seq<Record>, p: int, x: Record)
    ensures x in WithoutPage(rs, p) <==> x in rs && x.page != p
  {
    var res := WithoutPage(rs, p);
    assert x in res <==> multiset(res)[x] > 0;
    assert x in rs <==> multiset(rs)[x] > 0;
  }

  /** For a sorted index, erasing from the front keeps exactly the records not yet past. */
  lemma {:induction false} DropPastKeepsFuture(rs: seq<Record>, nowSec: int, x: Record)
    requires Sorted(rs)
    ensures x in DropPast(rs, nowSec) <==> x in rs && x.time >= nowSec
  {
    if rs == [] {
    } else if rs[0].time - nowSec < 0 {
      assert rs == [rs[0]] + rs[1..];
      assert Sorted(rs[1..]);
      DropPastKeepsFuture(rs[1..], nowSec, x);
    } else if x in rs {
      var i :| 0 <= i < |rs| && rs[i] == x;
      assert rs[0].time <= rs[i].time;
    }
  }

  /** Every remaining record is after the fired time; no record of that time survives. */
  lemma {:induction false} DropTimeLeavesLater(rs: seq<Record>, t: int, x: Record)
    requires Sorted(rs) && forall y :: y in rs ==> y.time >= t
    ensures x in DropTime(rs, t) <==> x in rs && x.time > t
  {
    if rs == [] {
    } else if rs[0].time == t {
      assert rs == [rs[0]] + rs[1..];
      assert Sorted(rs[1..]);
      DropTimeLeavesLater(rs[1..], t, x);
    } else if x in rs {
      var i :| 0 <= i < |rs| && rs[i] == x;
      assert rs[0].time <= rs[i].time;
    }
  }

  // -----------------------------------------------------------------------
  // Properties of one worker iteration.
  // -----------------------------------------------------------------------

  /** The records left after an iteration stay in time order and none of them is past. */
  lemma StepKeepsFuture(rs: seq<Record>, page: int, nowSec: int, nowMs: int)
    requires Sorted(rs) && page != ShutdownPage
    ensures var t := StepSpec(rs, page, nowSec, nowMs);
      Sorted(t.records) && forall x :: x in t.records ==> x.time >= nowSec
  {
    var live := DropPast(rs, nowSec);
    forall x | x in live ensures x.time >= nowSec {
      DropPastKeepsFuture(rs, nowSec, x);
    }
    if live != [] {
      var t0 := live[0].time;
      forall y | y in live ensures y.time >= t0 {
        var i :| 0 <= i < |live| && live[i] == y;
        assert live[0].time <= live[i].time;
      }
      forall y ensures y in DropTime(live, t0) ==> y in live {
        DropTimeLeavesLater(live, t0, y);
      }
    }
  }

  /**
   * Records whose time equals `nowSec` are not erased as past: unless the
   * iteration fires them, they are still there afterwards.
   */
  lemma StepKeepsCurrentSecond(rs: seq<Record>, page: int, nowSec: int, nowMs: int, x: Record)
    requires Sorted(rs) && page != ShutdownPage && x in rs && x.time == nowSec
    ensures var t := StepSpec(rs, page, nowSec, nowMs);
      t.result.Fire? || x in t.records
  {
    DropPastKeepsFuture(rs, nowSec, x);
  }

  /** The fired record's time is the earliest time among the records not yet past. */
  lemma StepFiresEarliest(rs: seq<Record>, page: int, nowSec: int, nowMs: int)
    requires Sorted(rs) && page != ShutdownPage
    requires StepSpec(rs, page, nowSec, nowMs).result.Fire?
    ensures var f := StepSpec(rs, page, nowSec, nowMs).result;
      && f.time >= nowSec
      && forall y :: y in rs && y.time >= nowSec ==> f.time <= y.time
  {
    var live := DropPast(rs, nowSec);
    var r := live[Choose(live)];
    forall y | y in rs && y.time >= nowSec ensures r.time <= y.time {
      DropPastKeepsFuture(rs, nowSec, y);
      var i :| 0 <= i < |live| && live[i] == y;
      assert live[0].time <= live[i].time;
    }
  }

  /**
   * A fired record was present, was due within the firing window, and has
   * the lowest priority number among the records of its time; the posted
   * page is its page.
   */
  lemma StepFiresLowestPriority(rs: seq<Record>, page: int, nowSec: int, nowMs: int)
    requires Sorted(rs) && page != ShutdownPage
    requires StepSpec(rs, page, nowSec, nowMs).result.Fire?
    ensures var t := StepSpec(rs, page, nowSec, nowMs);
      var f := t.result;
      && t.page == f.page
      && exists r :: r in rs && r.time == f.time && r.page == f.page && r.sound == f.sound
            && Delay(r, nowMs) < FireWindowMs
            && forall y :: y in rs && y.time == f.time ==> r.priority <= y.priority
  {
    var live := DropPast(rs, nowSec);
    var r := live[Choose(live)];
    StepFiresEarliest(rs, page, nowSec, nowMs);
    forall y | y in rs && y.time == r.time ensures r.priority <= y.priority {
      DropPastKeepsFuture(rs, nowSec, y);
      var i :| 0 <= i < |live| && live[i] == y;
    }
    DropPastKeepsFuture(rs, nowSec, r);
  }

  /** Firing erases exactly the records of the fired time: every later record stays. */
  lemma StepFiringClearsItsTime(rs: seq<Record>, page: int, nowSec: int, nowMs: int)
    requires Sorted(rs) && page != ShutdownPage
    requires StepSpec(rs, page, nowSec, nowMs).result.Fire?
    ensures var t := StepSpec(rs, page, nowSec, nowMs);
      var f := t.result;
      && (forall y :: y in t.records ==> y.time > f.time)
      && (forall y :: y in rs && y.time > f.time ==> y in t.records)
  {
    var live := DropPast(rs, nowSec);
    var r := live[Choose(live)];
    StepFiresEarliest(rs, page, nowSec, nowMs);
    forall y | y in live ensures y.time >= r.time {
      DropPastKeepsFuture(rs, nowSec, y);
    }
    forall y ensures y in DropTime(live, r.time) <==> y in live && y.time > r.time {
      DropTimeLeavesLater(live, r.time, y);
    }
    forall y | y in rs && y.time > r.time ensures y in live {
      DropPastKeepsFuture(rs, nowSec, y);
    }
  }

  /** The worker waits exactly when the chosen record is 16 ms or more away, and for that long. */
  lemma StepWaitsForDelay(rs: seq<Record>, page: int, nowSec: int, nowMs: int)
    requires Sorted(rs) && page != ShutdownPage
    requires StepSpec(rs, page, nowSec, nowMs).result.WaitFor?
    ensures var t := StepSpec(rs, page, nowSec, nowMs);
      && t.result.delayMs >= FireWindowMs
      && t.records == DropPast(rs, nowSec) && t.page == page
      && exists r :: r in rs && r.time >= nowSec && Delay(r, nowMs) == t.result.delayMs
  {
    var live := DropPast(rs, nowSec);
    var r := live[Choose(live)];
    DropPastKeepsFuture(rs, nowSec, r);
  }

  /**
   * Without additions in between, successive firings are in strictly
   * increasing time: each firing removes every record of its time.
   */
  lemma FiringsIncreaseInTime(rs: seq<Record>, page: int, s1: int, m1: int, page2: int, s2: int, m2: int)
    requires Sorted(rs) && page != ShutdownPage && page2 != ShutdownPage
    requires StepSpec(rs, page, s1, m1).result.Fire?
    requires StepSpec(StepSpec(rs, page, s1, m1).records, page2, s2, m2).result.Fire?
    ensures StepSpec(rs, page, s1, m1).result.time
      < StepSpec(StepSpec(rs, page, s1, m1).records, page2, s2, m2).result.time
  {
    var t1 := StepSpec(rs, page, s1, m1);
    StepFiringClearsItsTime(rs, page, s1, m1);
    StepKeepsFuture(rs, page, s1, m1);
    var f2 := StepSpec(t1.records, page2, s2, m2).result;
    StepFiresLowestPriority(t1.records, page2, s2, m2);
    var r :| r in t1.records && r.time == f2.time && r.page == f2.page && r.sound == f2.sound
            && Delay(r, m2) < FireWindowMs
            && forall y :: y in t1.records && y.time == f2.time ==> r.priority <= y.priority;
  }

  /** Once page `p`'s records are removed, no iteration fires page `p`. */
  lemma RemovedPageNeverFires(rs: seq<Record>, p: int, page: int, nowSec: int, nowMs: int)
    requires Sorted(rs) && page != ShutdownPage
    ensures var t := StepSpec(WithoutPage(rs, p), page, nowSec, nowMs);
      t.result.Fire? ==> t.result.page != p
  {
    var rs' := WithoutPage(rs, p);
    if StepSpec(rs', page, nowSec, nowMs).result.Fire? {
      StepFiresLowestPriority(rs', page, nowSec, nowMs);
      var f := StepSpec(rs', page, nowSec, nowMs).result;
      var r :| r in rs' && r.time == f.time && r.page == f.page && r.sound == f.sound
            && Delay(r, nowMs) < FireWindowMs
            && forall y :: y in rs' && y.time == f.time ==> r.priority <= y.priority;
      RemoveExact(rs, p, r);
    }
  }

  /**
   * The worker's second loop, over the records sharing the earliest time:
   * it finds the record the choice rule names.
   */
  method ChooseIndex(rs: seq<Record>) returns (best: nat)
    requires Sorted(rs) && rs != []
    ensures best == Choose(rs)
    ensures IsChoice(rs, best)
  {
    best := 0;
    var next := 1;
    while next < |rs| && rs[next].time == rs[best].time
      invariant best < next <= |rs|
      invariant forall j :: 0 <= j < next ==> rs[j].time == rs[0].time
      invariant forall j :: 0 <= j < next ==> rs[best].priority <= rs[j].priority
      invariant forall j :: 0 <= j < best ==> rs[best].priority < rs[j].priority
      invariant ChooseFrom(rs, best, next) == Choose(rs)
      decreases |rs| - next
    {
      if rs[next].priority < rs[best].priority {
        best := next;
      }
      next := next + 1;
    }
  }

  /**
   * The scheduler object. `page` holds a pending page, `NoPage` for none or
   * `ShutdownPage` once shutdown is requested; `testTimeOffset` is added to
   * the clock in every time computation.
   */
  class Scheduler {
    var records: seq<Record>
    var page: int
    var testTimeOffset: int

    ghost predicate Valid()
      reads this
    {
      Sorted(records)
    }

    /** A new scheduler holds no records, has no page pending and no offset. */
    constructor ()
      ensures Valid()
      ensures records == [] && page == NoPage && testTimeOffset == 0
    {
      records := [];
      page := NoPage;
      testTimeOffset := 0;
    }

    /** `add`: one more record with the given fields; nothing else changes. */
    method Add(time: int, priority: int, p: int, sound: Audible)
      requires Valid()
      modifies this
      ensures Valid()
      ensures records == Insert(old(records), Record(time, priority, p, sound))
      ensures multiset(records) == multiset(old(records)) + multiset{Record(time, priority, p, sound)}
      ensures page == old(page) && testTimeOffset == old(testTimeOffset)
    {
      InsertSorted(records, Record(time, priority, p, sound));
      InsertCount(records, Record(time, priority, p, sound));
      records := Insert(records, Record(time, priority, p, sound));
    }

    /** `remove`: every record for page `p` goes, whatever its time; the rest stay. */
    method Remove(p: int)
      requires Valid()
      modifies this
      ensures Valid()
      ensures records == WithoutPage(old(records), p)
      ensures forall x :: x in records <==> x in old(records) && x.page != p
      ensures page == old(page) && testTimeOffset == old(testTimeOffset)
    {
      records := WithoutPage(records, p);
      forall x ensures x in records <==> x in old(records) && x.page != p {
        RemoveExact(old(records), p, x);
      }
    }

    /** `changeToPage`: hands over the pending value and resets it to "none". */
    method ChangeToPage() returns (ret: int)
      modifies this
      ensures ret == old(page) && page == NoPage
      ensures records == old(records) && testTimeOffset == old(testTimeOffset)
    {
      ret := page;
      page := NoPage;
    }

    /** `timeOffset`: only the offset changes. */
    method TimeOffset(toff: int)
      modifies this
      ensures testTimeOffset == toff
      ensures records == old(records) && page == old(page)
    {
      testTimeOffset := toff;
    }

    /** The destructor's locked part: no records, and the shutdown value in `page`. */
    method Shutdown()
      modifies this
      ensures Valid()
      ensures records == [] && page == ShutdownPage && testTimeOffset == old(testTimeOffset)
    {
      records := [];
      page := ShutdownPage;
    }

    /**
     * One iteration of the worker loop, for a clock reading of `clockUs`
     * microseconds since midnight UTC.
     */
    method Step(clockUs: int) returns (res: StepResult)
      requires Valid()
      modifies this
      ensures Valid()
      ensures Tick(res, records, page)
        == StepSpec(old(records), old(page),
                    NowSeconds(clockUs, old(testTimeOffset)), NowMillis(clockUs, old(testTimeOffset)))
      ensures testTimeOffset == old(testTimeOffset)
    {
      if page == ShutdownPage {
        return Exited;
      }
      var t := clockUs;
      if testTimeOffset != 0 {
        t := t + testTimeOffset * 1000000;
      }
      var nowSec := Div(t, 1000000);
      var nowMs := Div(t, 1000);
      assert t == clockUs + testTimeOffset * 1000000;
      assert nowSec == NowSeconds(clockUs, testTimeOffset) && nowMs == NowMillis(clockUs, testTimeOffset);
      ghost var spec := StepSpec(records, page, nowSec, nowMs);
      // erase what is already past
      var rs := records;
      while rs != [] && rs[0].time - nowSec < 0
        invariant Sorted(rs)
        invariant DropPast(rs, nowSec) == DropPast(records, nowSec)
        decreases |rs|
      {
        rs := rs[1..];
      }
      assert rs == DropPast(rs, nowSec) == DropPast(records, nowSec);
      records := rs;
      if rs == [] {
        assert spec == Tick(Idle, [], page);
        return Idle;
      }
      var best := ChooseIndex(rs);
      var r := rs[best];
      var delay := r.time * 1000 - nowMs - BuzLen(r.sound);
      assert delay == Delay(rs[Choose(rs)], nowMs);
      if delay < FireWindowMs {
        page := r.page;
        records := DropTime(rs, r.time);
        res := Fire(r.time, r.page, r.sound);
        assert spec == Tick(res, records, page);
      } else {
        res := WaitFor(delay);
        assert spec == Tick(res, records, page);
      }
    }
  }

  // -----------------------------------------------------------------------
  // Scenarios on a fresh scheduler.
  // -----------------------------------------------------------------------

  /**
   * A record that is due fires, its page is handed over once by
   * `changeToPage`, and a second call with no firing in between returns
   * "none".
   */
  method PageHandedOverOnce(time: int, priority: int, p: int, sound: Audible, clockUs: int)
    returns (fired: StepResult, first: int, second: int)
    requires time >= NowSeconds(clockUs, 0)
    requires time * 1000 - NowMillis(clockUs, 0) - BuzLen(sound) < FireWindowMs
    ensures fired == Fire(time, p, sound)
    ensures first == p && second == NoPage
  {
    var s := new Scheduler();
    s.Add(time, priority, p, sound);
    assert s.records == [Record(time, priority, p, sound)];
    fired := s.Step(clockUs);
    first := s.ChangeToPage();
    second := s.ChangeToPage();
  }

  /** A record added and then removed by page never fires. */
  method RemovedBeforeDue(time: int, priority: int, p: int, sound: Audible, clockUs: int)
    returns (res: StepResult, pending: int)
    ensures res == Idle && pending == NoPage
  {
    var s := new Scheduler();
    s.Add(time, priority, p, sound);
    s.Remove(p);
    res := s.Step(clockUs);
    pending := s.ChangeToPage();
  }

  /** Shutdown is seen even when no record was ever added: the worker exits. */
  method ShutdownWithoutRecords(clockUs: int) returns (res: StepResult)
    ensures res == Exited
  {
    var s := new Scheduler();
    s.Shutdown();
    res := s.Step(clockUs);
  }
}
