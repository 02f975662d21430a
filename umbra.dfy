/**
 * The shadow-path scan (`Umbra`): given the umbra shapes of the eclipse, one
 * per sampled instant and in time order, find whether a location sees
 * totality and, if so, the times of the first and last shapes that contain
 * it. A scan resumes near the previous answer, pre-filters shapes by their
 * centre until the first hit, stops after four consecutive misses, and
 * retries once from the beginning when a resumed scan finds nothing.
 *
 * The GIS layer is abstracted as a sequence of features whose identifier is
 * their index; whether a shape contains a location is the feature's own
 * predicate `covers`.
 */
module Umbra {
  import opened CInt

  /** One umbra shape: its time, its centre, and which locations it contains. */
  datatype Feature = Feature(time: int, clon: real, clat: real, covers: (real, real) -> bool)

  datatype Option<T> = None | Some(value: T)

  /** The three kinds of failure: no dataset, no `umbra_hi` layer, no feature at the start index. */
  datatype UmbraError =
    | OpenError(file: string)
    | NoLayer(file: string, layer: string)
    | NoFeature(index: int)

  datatype Result<T> = Ok(value: T) | Err(error: UmbraError)

  /** The layer the shapes are read from. */
  const LayerName: string := "umbra_hi"

  /** A dataset file: its layers by name. */
  type Dataset = map<string, seq<Feature>>

  /**
   * The constructor's opening of `fname`: the layer's features, or the
   * error that tells which step failed.
   */
  function Open(files: map<string, Dataset>, fname: string): (r: Result<seq<Feature>>)
    ensures r.Ok? <==> fname in files && LayerName in files[fname]
    ensures r.Ok? ==> r.value == files[fname][LayerName]
    ensures fname !in files ==> r == Err(OpenError(fname))
    ensures fname in files && LayerName !in files[fname] ==> r == Err(NoLayer(fname, LayerName))
  {
    if fname !in files then Err(OpenError(fname))
    else if LayerName !in files[fname] then Err(NoLayer(fname, LayerName))
    else Ok(files[fname][LayerName])
  }

  function Abs(x: real): (a: real)
    ensures a >= 0.0 && (a == x || a == -x)
  {
    if x < 0.0 then -x else x
  }

  /** The centre pre-filter: a shape whose centre is within 1.4 degrees both ways. */
  predicate NearCentre(f: Feature, lon: real, lat: real)
  {
    !(Abs(lon - f.clon) > 1.4) && !(Abs(lat - f.clat) > 1.4)
  }

  /** A shape the scan accepts as its first hit: near by centre and containing the location. */
  predicate Candidate(f: Feature, lon: real, lat: real)
  {
    NearCentre(f, lon, lat) && f.covers(lon, lat)
  }

  /** The first hit of a scan starting at index `i`: the first candidate at or after `i`. */
  function FirstHit(fs: seq<Feature>, i: nat, lon: real, lat: real): (r: Option<nat>)
    ensures r.Some? ==> i <= r.value < |fs| && Candidate(fs[r.value], lon, lat)
    ensures r.Some? ==> forall j :: i <= j < r.value ==> !Candidate(fs[j], lon, lat)
    ensures r.None? ==> forall j :: i <= j < |fs| ==> !Candidate(fs[j], lon, lat)
    decreases |fs| - i
  {
    if i >= |fs| then None
    else if Candidate(fs[i], lon, lat) then Some(i)
    else FirstHit(fs, i + 1, lon, lat)
  }

  /** Consecutive misses after the last hit at which the scan stops. */
  const MaxMisses: nat := 4

  /**
   * The last hit of a scan after its first hit: `cur` is the latest hit so
   * far and `missed` the misses since. No pre-filter applies here.
   */
  function LastHit(fs: seq<Feature>, i: nat, missed: nat, cur: nat, lon: real, lat: real): (b: nat)
    requires cur < i
    ensures cur <= b && (b == cur || (i <= b < |fs| && fs[b].covers(lon, lat)))
    decreases |fs| - i
  {
    if missed >= MaxMisses || i >= |fs| then cur
    else if fs[i].covers(lon, lat) then LastHit(fs, i + 1, 0, i, lon, lat)
    else LastHit(fs, i + 1, missed + 1, cur, lon, lat)
  }

  /** Some shape after `j`, within four places and not beyond `b`, contains the location. */
  ghost predicate HitWithin(fs: seq<Feature>, j: nat, b: nat, lon: real, lat: real)
  {
    exists k :: j < k <= j + MaxMisses && k <= b && k < |fs| && fs[k].covers(lon, lat)
  }

  /** Between `a` and `b` there is never a run of four shapes missing the location. */
  ghost predicate NoLongGap(fs: seq<Feature>, a: nat, b: nat, lon: real, lat: real)
  {
    forall j: nat :: a <= j < b ==> HitWithin(fs, j, b, lon, lat)
  }

  /** After `b` come four misses, or the end of the shapes. */
  ghost predicate StopsAfter(fs: seq<Feature>, b: nat, lon: real, lat: real)
  {
    forall j :: b < j <= b + MaxMisses && j < |fs| ==> !fs[j].covers(lon, lat)
  }

  /**
   * What the scan after the first hit finds, stated without the scan: a
   * last hit reached from the first through gaps of at most three misses,
   * followed by four misses or the end.
   */
  lemma {:induction false} LastHitShape(fs: seq<Feature>, i: nat, missed: nat, cur: nat, lon: real, lat: real)
    requires cur < i <= |fs| && missed == i - 1 - cur && missed <= MaxMisses
    requires forall j :: cur < j < i ==> !fs[j].covers(lon, lat)
    ensures var b := LastHit(fs, i, missed, cur, lon, lat);
      NoLongGap(fs, cur, b, lon, lat) && StopsAfter(fs, b, lon, lat)
    decreases |fs| - i
  {
    var b := LastHit(fs, i, missed, cur, lon, lat);
    if missed >= MaxMisses || i >= |fs| {
      assert b == cur;
    } else if fs[i].covers(lon, lat) {
      LastHitShape(fs, i + 1, 0, i, lon, lat);
      assert b == LastHit(fs, i + 1, 0, i, lon, lat);
      forall j: nat | cur <= j < b
        ensures HitWithin(fs, j, b, lon, lat)
      {
        if j < i {
          assert i <= j + MaxMisses && i <= b && fs[i].covers(lon, lat);
        }
      }
    } else {
      LastHitShape(fs, i + 1, missed + 1, cur, lon, lat);
    }
  }

  /** The scanner's remembered answer. */
  datatype Track = Track(first: int, last: int, startT: int, endT: int)

  /** The outcome of `check`: its answer or error, and the remembered answer afterwards. */
  datatype Outcome = Outcome(result: Result<bool>, track: Track)

  /** Index distance subtracted from the previous first hit, for overlapping shapes. */
  const Overlap: int := 162
  /** Shapes kept in reach of the end of the data when resuming. */
  const Reach: int := 256

  /**
   * Where a resumed scan starts: back from the previous first hit by the
   * overlap, shifted by the westward or eastward movement, then kept in
   * the bounds of the data.
   */
  function HeuristicStart(first: int, total: int, lon: real, poslon: real): int
  {
    var diff := lon - poslon;
    var shift := if diff < 0.0 then diff * 138.0 else diff * 34.0;
    var start := first - Overlap + Trunc(shift);
    if start < 0 then 0
    else if start >= total - Reach then total - Reach
    else start
  }

  /** With at least 256 shapes the resumed start is a valid index; otherwise it can be negative. */
  lemma HeuristicStartBounds(first: int, total: int, lon: real, poslon: real)
    ensures total >= Reach ==> 0 <= HeuristicStart(first, total, lon, poslon) <= total - Reach
    ensures HeuristicStart(first, total, lon, poslon) < 0 ==> total < Reach
    ensures HeuristicStart(first, total, lon, poslon) <= 0 || HeuristicStart(first, total, lon, poslon) <= total - Reach
  {
  }

  /** Moving west never starts the scan later than the previous first hit less the overlap. */
  lemma {:induction false} HeuristicWestward(first: int, total: int, lon: real, poslon: real)
    requires lon < poslon
    ensures HeuristicStart(first, total, lon, poslon) <= first - Overlap
      || HeuristicStart(first, total, lon, poslon) == 0
  {
    var diff := lon - poslon;
    assert diff * 138.0 < 0.0;
    assert Trunc(diff * 138.0) <= 0;
  }

  /** The start index of a scan: resumed only when the previous first hit is after index 0. */
  function ScanStart(tr: Track, total: int, lon: real, poslon: real): int
  {
    if tr.first > 0 then HeuristicStart(tr.first, total, lon, poslon) else 0
  }

  /** One scan from index `s`: the first hit sets `first`/`startT`, a later last hit `last`/`endT`. */
  function Scan(fs: seq<Feature>, s: nat, tr: Track, lon: real, lat: real): (bool, Track)
  {
    match FirstHit(fs, s, lon, lat)
    case None => (false, tr)
    case Some(a) =>
      var b := LastHit(fs, a + 1, 0, a, lon, lat);
      (true, Track(a, if b > a then b else tr.last, fs[a].time, if b > a then fs[b].time else tr.endT))
  }

  /** `check`, with the single retry from the beginning. */
  function CheckSpec(fs: seq<Feature>, tr: Track, lon: real, lat: real, poslon: real): Outcome
    decreases if tr.first >= 0 then 1 else 0
  {
    var s := ScanStart(tr, |fs|, lon, poslon);
    if s < 0 || s >= |fs| then Outcome(Err(NoFeature(s)), tr)
    else
      var (found, tr') := Scan(fs, s, tr, lon, lat);
      if !found && tr.first >= 0 then CheckSpec(fs, tr.(first := -1, last := -1), lon, lat, poslon)
      else Outcome(Ok(found), tr')
  }

  // -----------------------------------------------------------------------
  // Properties of `check`.
  // -----------------------------------------------------------------------

  /**
   * A negative answer is complete: no shape anywhere is a candidate, because
   * a scan that did not start at 0 is retried from 0. The remembered times
   * are unchanged.
   */
  lemma CheckFalseMeansNoCandidate(fs: seq<Feature>, tr: Track, lon: real, lat: real, poslon: real)
    requires CheckSpec(fs, tr, lon, lat, poslon).result == Ok(false)
    ensures forall j :: 0 <= j < |fs| ==> !Candidate(fs[j], lon, lat)
    ensures CheckSpec(fs, tr, lon, lat, poslon).track.startT == tr.startT
    ensures CheckSpec(fs, tr, lon, lat, poslon).track.endT == tr.endT
  {
  }

  /**
   * A positive answer names a candidate as `first` with its time as
   * `startT`; `last`/`endT` are either a later containing shape reached
   * through gaps of at most three misses and followed by four misses or the
   * end, or (single hit) left as they were.
   */
  lemma CheckTrueIsSound(fs: seq<Feature>, tr: Track, lon: real, lat: real, poslon: real)
    requires CheckSpec(fs, tr, lon, lat, poslon).result == Ok(true)
    decreases if tr.first >= 0 then 1 else 0
    ensures var t := CheckSpec(fs, tr, lon, lat, poslon).track;
      && 0 <= t.first < |fs| && Candidate(fs[t.first], lon, lat) && t.startT == fs[t.first].time
      && ((t.first < t.last < |fs| && fs[t.last].covers(lon, lat) && t.endT == fs[t.last].time
            && NoLongGap(fs, t.first, t.last, lon, lat) && StopsAfter(fs, t.last, lon, lat))
          || (StopsAfter(fs, t.first, lon, lat) && t.endT == tr.endT))
  {
    var s := ScanStart(tr, |fs|, lon, poslon);
    if 0 <= s < |fs| {
      var (found, tr') := Scan(fs, s, tr, lon, lat);
      if !found && tr.first >= 0 {
        CheckTrueIsSound(fs, tr.(first := -1, last := -1), lon, lat, poslon);
      } else {
        var a := FirstHit(fs, s, lon, lat).value;
        LastHitShape(fs, a + 1, 0, a, lon, lat);
      }
    }
  }

  /** A scan that starts at index 0 or resumes with at least 256 shapes never fails. */
  lemma CheckFailsOnlyOnBadStart(fs: seq<Feature>, tr: Track, lon: real, lat: real, poslon: real)
    requires fs != []
    requires tr.first <= 0 || |fs| >= Reach
    ensures CheckSpec(fs, tr, lon, lat, poslon).result.Ok?
  {
    HeuristicStartBounds(tr.first, |fs|, lon, poslon);
  }

  /** An error carries the start index, which is not an index of any shape. */
  lemma CheckErrorIndex(fs: seq<Feature>, tr: Track, lon: real, lat: real, poslon: real)
    requires CheckSpec(fs, tr, lon, lat, poslon).result.Err?
    ensures var e := CheckSpec(fs, tr, lon, lat, poslon).result.error;
      e.NoFeature? && (e.index < 0 || e.index >= |fs|)
      && CheckSpec(fs, tr, lon, lat, poslon).track == tr
  {
  }

  /** With no shapes at all, every check fails. */
  lemma EmptyLayerFails(tr: Track, lon: real, lat: real, poslon: real)
    ensures CheckSpec([], tr, lon, lat, poslon).result.Err?
  {
  }

  /**
   * The scan loop from feature `start`: centre pre-filter until the first
   * hit, then every shape, until four consecutive misses or the end; `tr`
   * is what the scanner remembered before.
   */
  method ScanShapes(fs: seq<Feature>, start: nat, tr: Track, lon: real, lat: real) returns (foundFirst: bool, out: Track)
    requires start < |fs|
    ensures (foundFirst, out) == Scan(fs, start, tr, lon, lat)
  {
    var i: nat := start;
    var missed: nat := 0;
    foundFirst := false;
    out := tr;
    ghost var cur: nat := 0;
    while i < |fs| && missed < MaxMisses
      invariant Scanning(fs, start, tr, lon, lat, i, missed, foundFirst, out, cur)
      decreases |fs| - i
    {
      i, missed, foundFirst, out, cur := ScanStep(fs, start, tr, lon, lat, i, missed, foundFirst, out, cur);
    }
    if foundFirst {
      assert LastHit(fs, i, missed, cur, lon, lat) == cur;
    } else {
      assert FirstHit(fs, start, lon, lat) == None;
    }
  }

  /**
   * The state of the scan loop at shape `i`: before the first hit nothing is
   * remembered yet; after it, `cur` is the latest hit, `missed` counts the
   * misses since, and the rest of the scan will end at the same last hit.
   */
  ghost predicate Scanning(fs: seq<Feature>, start: nat, tr: Track, lon: real, lat: real,
    i: nat, missed: nat, foundFirst: bool, out: Track, cur: nat)
  {
    && start <= i <= |fs|
    && (!foundFirst ==> missed == 0 && FirstHit(fs, start, lon, lat) == FirstHit(fs, i, lon, lat) && out == tr)
    && (foundFirst ==>
      && FirstHit(fs, start, lon, lat) == Some(out.first)
      && out.first <= cur < i && missed == i - 1 - cur
      && out.startT == fs[out.first].time
      && LastHit(fs, out.first + 1, 0, out.first, lon, lat) == LastHit(fs, i, missed, cur, lon, lat)
      && (if cur > out.first then out.last == cur && out.endT == fs[cur].time
          else out.last == tr.last && out.endT == tr.endT))
  }

  /** One pass of the scan loop, at shape `i`. */
  method ScanStep(fs: seq<Feature>, ghost start: nat, ghost tr: Track, lon: real, lat: real,
    i: nat, missed: nat, foundFirst: bool, out: Track, ghost cur: nat)
    returns (i': nat, missed': nat, foundFirst': bool, out': Track, ghost cur': nat)
    requires i < |fs| && missed < MaxMisses
    requires Scanning(fs, start, tr, lon, lat, i, missed, foundFirst, out, cur)
    ensures i' == i + 1 && Scanning(fs, start, tr, lon, lat, i', missed', foundFirst', out', cur')
  {
    i', missed', foundFirst', out', cur' := i + 1, missed, foundFirst, out, cur;
    var f := fs[i];
    // the centre pre-filter, only until the first hit
    if !foundFirst && !NearCentre(f, lon, lat) {
      return;
    }
    if f.covers(lon, lat) {
      if foundFirst {
        out' := out.(last := i, endT := f.time);
        missed' := 0;
        cur' := i;
      } else {
        out' := out.(first := i, startT := f.time);
        foundFirst' := true;
        cur' := i;
      }
    } else if foundFirst {
      missed' := missed + 1;
    }
  }

/**
   * The scanner: the layer's shapes and the remembered answer. `poslon` is
   * read by the resumed-start heuristic and never assigned; it keeps the
   * value 0.0 given here.
   */
  class Umbra {
    const features: seq<Feature>
    const total: int
    var first: int
    var last: int
    var startT: int
    var endT: int
    const poslon: real

    function Remembered(): Track
      reads this
    {
      Track(first, last, startT, endT)
    }

    /** A scanner over an opened layer, with no previous answer. */
    constructor (layer: seq<Feature>)
      ensures features == layer && total == |layer|
      ensures first == -1 && last == -1 && startT == 0 && endT == 0 && poslon == 0.0
    {
      features := layer;
      total := |layer|;
      first := -1;
      last := -1;
      startT := 0;
      endT := 0;
      poslon := 0.0;
    }

    /** The scan loop from feature `start`, remembering what `ScanShapes` finds. */
    method ScanFrom(start: nat, lon: real, lat: real) returns (foundFirst: bool)
      requires start < |features|
      modifies this
      ensures (foundFirst, Remembered()) == Scan(features, start, old(Remembered()), lon, lat)
    {
      var tr;
      foundFirst, tr := ScanShapes(features, start, Remembered(), lon, lat);
      first, last, startT, endT := tr.first, tr.last, tr.startT, tr.endT;
    }

    /** `check(lon, lat)`. */
    method Check(lon: real, lat: real) returns (r: Result<bool>)
      requires total == |features|
      modifies this
      ensures Outcome(r, Remembered()) == CheckSpec(features, old(Remembered()), lon, lat, poslon)
      decreases if first >= 0 then 1 else 0
    {
      ghost var tr0 := Remembered();
      var start: int;
      if first > 0 {
        var diff := lon - poslon;
        if diff < 0.0 {
          diff := diff * 138.0;
        } else {
          diff := diff * 34.0;
        }
        start := first - Overlap + Trunc(diff);
        if start < 0 {
          start := 0;
        } else if start >= total - Reach {
          start := total - Reach;
        }
      } else {
        start := 0;
      }
      assert start == ScanStart(tr0, |features|, lon, poslon);
      if start < 0 || start >= |features| {
        return Err(NoFeature(start));
      }
      var foundFirst := ScanFrom(start, lon, lat);
      assert (foundFirst, Remembered()) == Scan(features, start, tr0, lon, lat);
      if !foundFirst && first >= 0 {
        first := -1;
        last := -1;
        assert Remembered() == tr0.(first := -1, last := -1);
        r := Check(lon, lat);
      } else {
        r := Ok(foundFirst);
      }
    }
  }
}
