/**
 * The Sokoban clock: a signed 64-bit count of microseconds that every
 * frame advances, and the "H:MM:SS" text drawn from it.
 */
module ElapsedTimes {
  import opened Decimals

  const MicrosPerSecond: nat := 1000000
  const Unsigned32: nat := 0x1_0000_0000

  predicate IsInt64(x: int)
  {
    -0x8000_0000_0000_0000 <= x < 0x8000_0000_0000_0000
  }

  class ElapsedTime {
    var elapsedTimeInMicroseconds: int

    ghost predicate Valid()
      reads this
    {
      IsInt64(elapsedTimeInMicroseconds)
    }

    constructor()
      ensures Valid() && elapsedTimeInMicroseconds == 0
    {
      elapsedTimeInMicroseconds := 0;
    }

    /** Adds a frame's delta time; a sum outside 64 bits would be undefined behaviour. */
    method Update(dt: int)
      requires Valid() && IsInt64(elapsedTimeInMicroseconds + dt)
      modifies this
      ensures Valid() && elapsedTimeInMicroseconds == old(elapsedTimeInMicroseconds) + dt
    {
      elapsedTimeInMicroseconds := elapsedTimeInMicroseconds + dt;
    }
  }

  /** C++ division of signed integers, which truncates toward zero. */
  function TruncDiv(a: int, b: nat): (q: int)
    requires b > 0
    ensures a >= 0 ==> q == a / b
    ensures a < 0 ==> q == -((-a) / b)
  {
    if a >= 0 then a / b else -((-a) / b)
  }

  /**
   * The whole seconds of the clock, as the draw code stores them: the
   * quotient by one million, truncated, then converted to a 32-bit
   * unsigned number.
   */
  function Seconds(micros: int): (r: nat)
    ensures r < Unsigned32
    ensures 0 <= micros < Unsigned32 * MicrosPerSecond ==> r == micros / MicrosPerSecond
  {
    TruncDiv(micros, MicrosPerSecond) % Unsigned32
  }

  /** The clock text: hours, then minutes and seconds within the hour and minute, zero-padded. */
  function ClockText(micros: int): (r: string)
  {
    var seconds := Seconds(micros);
    var minutes := seconds / 60;
    var hours := minutes / 60;
    var second := seconds % 60;
    var minute := minutes % 60;
    Decimal(hours) + ":" + TwoDigits(minute) + ":" + TwoDigits(second)
  }

  /**
   * The clock text has the form H:MM:SS: an unpadded run of hour digits,
   * a colon, two minute digits below 60, a colon and two second digits
   * below 60, and reading it back as hours, minutes and seconds gives the
   * clock's whole seconds.
   */
  lemma ClockTextReadsBack(micros: int)
    ensures var r := ClockText(micros);
      |r| >= 7 && r[|r| - 6] == ':' && r[|r| - 3] == ':' &&
      AllDigits(r[..|r| - 6]) && AllDigits(r[|r| - 5..|r| - 3]) && AllDigits(r[|r| - 2..]) &&
      Value(r[|r| - 5..|r| - 3]) < 60 && Value(r[|r| - 2..]) < 60 &&
      Value(r[..|r| - 6]) * 3600 + Value(r[|r| - 5..|r| - 3]) * 60 + Value(r[|r| - 2..]) == Seconds(micros)
  {
    var seconds := Seconds(micros);
    var minutes := seconds / 60;
    var hours := minutes / 60;
    var h, mm, ss := Decimal(hours), TwoDigits(minutes % 60), TwoDigits(seconds % 60);
    var r := ClockText(micros);
    assert r == h + ":" + mm + ":" + ss;
    assert r[..|r| - 6] == h;
    assert r[|r| - 5..|r| - 3] == mm;
    assert r[|r| - 2..] == ss;
    DecimalValue(hours);
    assert seconds == minutes * 60 + seconds % 60;
    assert minutes == hours * 60 + minutes % 60;
  }

  /** Two clocks showing the same text have the same whole seconds. */
  lemma ClockTextInjective(a: int, b: int)
    requires ClockText(a) == ClockText(b)
    ensures Seconds(a) == Seconds(b)
  {
    ClockTextReadsBack(a);
    ClockTextReadsBack(b);
  }

  /** One hour, one minute and one second read "1:01:01". */
  lemma ClockTextExample()
    ensures ClockText(3661 * MicrosPerSecond) == "1:01:01"
  {
    assert Seconds(3661 * MicrosPerSecond) == 3661;
  }
}
