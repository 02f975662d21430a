/**
 * Hours, minutes and seconds (`Hms`): splitting a count of seconds and the
 * two text forms the displays use, a duration such as "1h05m07s" and a
 * clock time such as " 9:05:07".
 */
module Functions {
  import opened CInt
  import opened Text

  datatype Parts = Parts(h: int, m: int, s: int)

  /**
   * `Hms::set`: hours, then the minutes left over, then the seconds left
   * over, each by C++ truncating division, so a negative count gives
   * non-positive parts.
   */
  function Split(seconds: int): (p: Parts)
    ensures p.h * 3600 + p.m * 60 + p.s == seconds
    ensures seconds >= 0 ==> p.h >= 0 && 0 <= p.m < 60 && 0 <= p.s < 60
    ensures seconds <= 0 ==> p.h <= 0 && -60 < p.m <= 0 && -60 < p.s <= 0
  {
    var h := Div(seconds, 3600);
    var m := Div(seconds, 60) - h * 60;
    var s := Rem(seconds, 60);
    SplitBounds(seconds, h, Div(seconds, 60));
    Parts(h, m, s)
  }

  /** The minutes part of a split stays within one hour. */
  lemma SplitBounds(x: int, h: int, q: int)
    requires h == Div(x, 3600) && q == Div(x, 60)
    ensures x >= 0 ==> 0 <= q - h * 60 < 60
    ensures x <= 0 ==> -60 < q - h * 60 <= 0
  {
    if x >= 0 {
      assert 0 <= x - 3600 * h < 3600;
      assert 0 <= x - 60 * q < 60;
    } else {
      assert -3600 < x - 3600 * h <= 0;
      assert -60 < x - 60 * q <= 0;
    }
  }

  /**
   * `Hms::writeDuration` on a fresh stream: the hours and an 'h' only when
   * there are hours; the minutes and an 'm' when there are hours or minutes,
   * zero-padded to two places only after hours; the seconds and an 's',
   * zero-padded to two places only after hours or minutes.
   */
  function WriteDuration(p: Parts): string
  {
    (if p.h != 0 then IntToString(p.h) + "h" else "")
    + (if p.h != 0 then PadLeft(IntToString(p.m), 2, '0') + "m"
       else if p.m != 0 then IntToString(p.m) + "m"
       else "")
    + (if p.h != 0 || p.m != 0 then PadLeft(IntToString(p.s), 2, '0') else IntToString(p.s))
    + "s"
  }

  /**
   * `Hms::writeTime` on a fresh stream: the hours right-aligned in two
   * places with spaces, then the minutes and the seconds zero-padded to two
   * places, separated by ':'.
   */
  function WriteTime(p: Parts): string
  {
    PadLeft(IntToString(p.h), 2, ' ') + ":"
    + PadLeft(IntToString(p.m), 2, '0') + ":"
    + PadLeft(IntToString(p.s), 2, '0')
  }

  /** `Hms`: the fields the display code reads after `set`. */
  class Hms {
    var h: int
    var m: int
    var s: int

    /** `Hms(int seconds)` calls `set`. */
    constructor (seconds: int)
      ensures Parts(h, m, s) == Split(seconds)
    {
      var p := Split(seconds);
      h, m, s := p.h, p.m, p.s;
    }

    /** `Hms::set`: afterwards the three fields add up to `seconds` again. */
    method Set(seconds: int)
      modifies this
      ensures Parts(h, m, s) == Split(seconds)
      ensures h * 3600 + m * 60 + s == seconds
    {
      h := Div(seconds, 3600);
      m := Div(seconds, 60) - h * 60;
      s := Rem(seconds, 60);
    }

    /** `Hms::duration`: exactly the text `writeDuration` emits. */
    function Duration(): string
      reads this
    {
      WriteDuration(Parts(h, m, s))
    }

    /** `Hms::time`: exactly the text `writeTime` emits. */
    function Time(): string
      reads this
    {
      WriteTime(Parts(h, m, s))
    }
  }

  // ---------------------------------------------------------------------
  // Reading the texts back. A reader walks the text once: digits build the
  // current number; 'h', 'm' and 's' add it as hours, minutes or seconds;
  // ':' carries the total so far into the next, sixty times smaller, unit;
  // a space is padding.
  // ---------------------------------------------------------------------

  datatype ReadState = ReadState(total: int, cur: int)

  function ReadChar(st: ReadState, c: char): ReadState
  {
    if IsDigit(c) then ReadState(st.total, st.cur * 10 + DigitValue(c))
    else if c == 'h' then ReadState(st.total + 3600 * st.cur, 0)
    else if c == 'm' then ReadState(st.total + 60 * st.cur, 0)
    else if c == 's' then ReadState(st.total + st.cur, 0)
    else if c == ':' then ReadState((st.total + st.cur) * 60, 0)
    else st
  }

  function ReadFrom(st: ReadState, text: string): ReadState
  {
    if text == [] then st else ReadChar(ReadFrom(st, text[..|text| - 1]), text[|text| - 1])
  }

  /** The number of seconds a duration or clock text denotes. */
  function ReadSeconds(text: string): int
  {
    var st := ReadFrom(ReadState(0, 0), text);
    st.total + st.cur
  }

  lemma {:induction false} ReadFromConcat(st: ReadState, a: string, b: string)
    ensures ReadFrom(st, a + b) == ReadFrom(ReadFrom(st, a), b)
  {
    if b != [] {
      assert (a + b)[..|a + b| - 1] == a + b[..|b| - 1];
      ReadFromConcat(st, a, b[..|b| - 1]);
    } else {
      assert a + b == a;
    }
  }

  lemma {:induction false} ReadFromDigits(total: int, text: string)
    requires AllDigits(text)
    ensures ReadFrom(ReadState(total, 0), text) == ReadState(total, ParseNat(text))
  {
    if text != [] {
      ReadFromDigits(total, text[..|text| - 1]);
    }
  }

  lemma {:induction false} ParseNatLeadingZero(text: string)
    requires AllDigits(text)
    ensures AllDigits(['0'] + text) && ParseNat(['0'] + text) == ParseNat(text)
  {
    if text != [] {
      assert (['0'] + text)[..|text|] == ['0'] + text[..|text| - 1];
      ParseNatLeadingZero(text[..|text| - 1]);
    }
  }

  /** Reading a non-negative number written with or without zero padding. */
  lemma ReadNumber(total: int, n: nat, padded: bool)
    ensures var text := if padded then PadLeft(NatToString(n), 2, '0') else NatToString(n);
      ReadFrom(ReadState(total, 0), text) == ReadState(total, n)
  {
    var digits := NatToString(n);
    ParseNatToString(n);
    if padded && |digits| < 2 {
      assert PadLeft(digits, 2, '0') == ['0'] + digits;
      ParseNatLeadingZero(digits);
      ReadFromDigits(total, ['0'] + digits);
    } else {
      ReadFromDigits(total, digits);
    }
  }

  /** A unit letter after a number adds it, in that unit, to the total. */
  lemma ReadField(total: int, n: nat, padded: bool, unit: char)
    requires unit == 'h' || unit == 'm' || unit == 's'
    ensures var text := (if padded then PadLeft(NatToString(n), 2, '0') else NatToString(n)) + [unit];
      ReadFrom(ReadState(total, 0), text)
        == ReadState(total + n * (if unit == 'h' then 3600 else if unit == 'm' then 60 else 1), 0)
  {
    var digits := if padded then PadLeft(NatToString(n), 2, '0') else NatToString(n);
    ReadNumber(total, n, padded);
    ReadFromConcat(ReadState(total, 0), digits, [unit]);
    ReadOne(ReadState(total, n), unit);
  }

  /** Reading a single character is one step of the reader. */
  lemma ReadOne(st: ReadState, c: char)
    ensures ReadFrom(st, [c]) == ReadChar(st, c)
  {
    assert [c][..0] == [];
  }

  /** Reading two consecutive fields of a text. */
  lemma ReadTwo(a: string, b: string, s1: ReadState, s2: ReadState)
    requires ReadFrom(ReadState(0, 0), a) == s1 && ReadFrom(s1, b) == s2
    ensures ReadFrom(ReadState(0, 0), a + b) == s2
  {
    ReadFromConcat(ReadState(0, 0), a, b);
  }

  /** The duration text of a count with hours: three fields. */
  lemma HoursText(h: nat, m: nat, s: nat)
    requires h != 0
    ensures WriteDuration(Parts(h, m, s))
      == ((NatToString(h) + "h") + (PadLeft(NatToString(m), 2, '0') + "m")) + (PadLeft(NatToString(s), 2, '0') + "s")
  {
  }

  /** The duration text of a count below an hour with minutes: two fields. */
  lemma MinutesText(m: nat, s: nat)
    requires m != 0
    ensures WriteDuration(Parts(0, m, s)) == (NatToString(m) + "m") + (PadLeft(NatToString(s), 2, '0') + "s")
  {
  }

  lemma DurationWithHours(h: nat, m: nat, s: nat)
    requires h != 0
    ensures ReadSeconds(WriteDuration(Parts(h, m, s))) == h * 3600 + m * 60 + s
  {
    var a := NatToString(h) + "h";
    var b := PadLeft(NatToString(m), 2, '0') + "m";
    var c := PadLeft(NatToString(s), 2, '0') + "s";
    var t1, t2 := h * 3600, h * 3600 + m * 60;
    ReadField(0, h, false, 'h');
    assert ReadFrom(ReadState(0, 0), a) == ReadState(t1, 0);
    ReadField(t1, m, true, 'm');
    assert ReadFrom(ReadState(t1, 0), b) == ReadState(t2, 0);
    ReadTwo(a, b, ReadState(t1, 0), ReadState(t2, 0));
    ReadField(t2, s, true, 's');
    assert ReadFrom(ReadState(t2, 0), c) == ReadState(t2 + s, 0);
    ReadTwo(a + b, c, ReadState(t2, 0), ReadState(t2 + s, 0));
    HoursText(h, m, s);
  }

  lemma DurationWithMinutes(m: nat, s: nat)
    requires m != 0
    ensures ReadSeconds(WriteDuration(Parts(0, m, s))) == m * 60 + s
  {
    var b := NatToString(m) + "m";
    var c := PadLeft(NatToString(s), 2, '0') + "s";
    MinutesText(m, s);
    ReadField(0, m, false, 'm');
    ReadField(m * 60, s, true, 's');
    ReadTwo(b, c, ReadState(m * 60, 0), ReadState(m * 60 + s, 0));
  }

  lemma DurationSecondsOnly(s: nat)
    ensures ReadSeconds(WriteDuration(Parts(0, 0, s))) == s
  {
    assert WriteDuration(Parts(0, 0, s)) == NatToString(s) + "s";
    ReadField(0, s, false, 's');
  }

  /**
   * The duration text of any non-negative count of seconds reads back as
   * that count: `writeDuration` drops only zero leading fields.
   */
  lemma DurationReadsBack(seconds: nat)
    ensures ReadSeconds(WriteDuration(Split(seconds))) == seconds
  {
    var p := Split(seconds);
    if p.h != 0 {
      DurationWithHours(p.h, p.m, p.s);
    } else if p.m != 0 {
      DurationWithMinutes(p.m, p.s);
    } else {
      DurationSecondsOnly(p.s);
    }
  }

  /** Hours below ten are padded with a space, which the reader skips. */
  lemma ReadHours(h: nat)
    requires h < 100
    ensures ReadFrom(ReadState(0, 0), PadLeft(NatToString(h), 2, ' ')) == ReadState(0, h)
  {
    var z := ReadState(0, 0);
    NatToStringLength(h);
    ParseNatToString(h);
    ReadFromDigits(0, NatToString(h));
    if h < 10 {
      assert PadLeft(NatToString(h), 2, ' ') == [' '] + NatToString(h);
      ReadFromConcat(z, [' '], NatToString(h));
      assert ReadFrom(z, [' ']) == z by {
        assert [' '][..0] == [];
      }
    }
  }

  /** A ':' after a field carries the total so far into the next unit. */
  lemma ReadColon(a: string, t: int, n: int)
    requires ReadFrom(ReadState(0, 0), a) == ReadState(t, n)
    ensures ReadFrom(ReadState(0, 0), a + ":") == ReadState((t + n) * 60, 0)
  {
    ReadFromConcat(ReadState(0, 0), a, ":");
    assert ":"[..0] == [];
  }

  /** A two-place zero-padded field after the ':' of a clock text. */
  lemma ReadClockField(a: string, n: int, f: nat)
    requires ReadFrom(ReadState(0, 0), a) == ReadState(n * 60, 0)
    ensures ReadFrom(ReadState(0, 0), a + PadLeft(NatToString(f), 2, '0')) == ReadState(n * 60, f)
  {
    ReadNumber(n * 60, f, true);
    ReadFromConcat(ReadState(0, 0), a, PadLeft(NatToString(f), 2, '0'));
  }

  /** A field below 100 fills exactly the two places `std::setw(2)` asks for. */
  lemma TwoPlaces(n: nat, fill: char)
    requires n < 100
    ensures |PadLeft(NatToString(n), 2, fill)| == 2
  {
    NatToStringLength(n);
  }

  lemma ColonsAt(hs: string, ms: string, ss: string)
    requires |hs| == 2 && |ms| == 2 && |ss| == 2
    ensures |hs + ":" + ms + ":" + ss| == 8
    ensures (hs + ":" + ms + ":" + ss)[2] == ':' && (hs + ":" + ms + ":" + ss)[5] == ':'
  {
  }

  lemma TimePartsShape(h: nat, m: nat, s: nat)
    requires h < 100 && m < 60 && s < 60
    ensures |WriteTime(Parts(h, m, s))| == 8
    ensures WriteTime(Parts(h, m, s))[2] == ':' && WriteTime(Parts(h, m, s))[5] == ':'
  {
    TwoPlaces(h, ' ');
    TwoPlaces(m, '0');
    TwoPlaces(s, '0');
    ColonsAt(PadLeft(IntToString(h), 2, ' '), PadLeft(IntToString(m), 2, '0'), PadLeft(IntToString(s), 2, '0'));
  }

  lemma TimePartsReadBack(h: nat, m: nat, s: nat)
    requires h < 100 && m < 60 && s < 60
    ensures ReadSeconds(WriteTime(Parts(h, m, s))) == h * 3600 + m * 60 + s
  {
    var hs := PadLeft(NatToString(h), 2, ' ');
    var ms := PadLeft(NatToString(m), 2, '0');
    var ss := PadLeft(NatToString(s), 2, '0');
    var t1 := hs + ":";
    var t2 := t1 + ms;
    var t3 := t2 + ":";
    var t4 := t3 + ss;
    assert WriteTime(Parts(h, m, s)) == t4;
    ReadHours(h);
    ReadColon(hs, 0, h);
    ReadClockField(t1, h, m);
    ReadColon(t2, h * 60, m);
    ReadClockField(t3, h * 60 + m, s);
    assert ReadFrom(ReadState(0, 0), t4) == ReadState((h * 60 + m) * 60, s);
  }

  lemma HoursBelow100(seconds: nat)
    requires seconds < 100 * 3600
    ensures Split(seconds).h < 100
  {
    assert Split(seconds).h * 3600 <= seconds;
  }

  /**
   * For a count of seconds below 100 hours the clock text is eight
   * characters, "hh:mm:ss" with the colons at places 2 and 5.
   */
  lemma TimeShape(seconds: nat)
    requires seconds < 100 * 3600
    ensures |WriteTime(Split(seconds))| == 8
    ensures WriteTime(Split(seconds))[2] == ':' && WriteTime(Split(seconds))[5] == ':'
  {
    var p := Split(seconds);
    HoursBelow100(seconds);
    TimePartsShape(p.h, p.m, p.s);
  }

  /** For a count of seconds below 100 hours the clock text reads back as that count. */
  lemma TimeReadsBack(seconds: nat)
    requires seconds < 100 * 3600
    ensures ReadSeconds(WriteTime(Split(seconds))) == seconds
  {
    var p := Split(seconds);
    HoursBelow100(seconds);
    TimePartsReadBack(p.h, p.m, p.s);
  }
}
