/**
 Instants (microseconds since 1970-01-01T00:00Z) and Tanzanian calendar days
 (day number since 1970-01-01, UTC+3, no daylight saving).
 */
module LocalDates {

  const MICROS := 1_000_000
  const DAY_SECS := 86_400
  const TZ_SECS := 3 * 3_600

  function DayStart(day: int): int { (day * DAY_SECS - TZ_SECS) * MICROS }

  /** Day 0 began at 21:00 UTC the evening before, and each day is 24 hours long. */
  lemma DaysAre(day: int)
    ensures DayStart(0) == -10_800_000_000 && DayStart(day + 1) == DayStart(day) + 86_400_000_000
  {
  }

  /** The constructor of Date keeps whole milliseconds, truncating toward zero. */
  function Millis(micros: int): int { if micros >= 0 then micros / 1000 else -(-micros / 1000) }

  predicate LeastDayAtOrAfter(floor: int, day: int) {
    DayStart(day - 1) < floor <= DayStart(day)
  }

  /** The part of the instant the formatter does not show: it lies within the
      second that begins the day, but after its start. */
  ghost predicate LosesFraction(floor: int) {
    exists day :: DayStart(day) < floor && Millis(floor) / 1000 * MICROS == DayStart(day)
  }

  /** The day and wall-clock second in Tanzania, as formatToParts gives them. */
  function LocalDay(micros: int): int { (Millis(micros) / 1000 + TZ_SECS) / DAY_SECS }

  function SecondOfDay(micros: int): int { (Millis(micros) / 1000 + TZ_SECS) % DAY_SECS }

  function CeilDay(floor: int): int { if SecondOfDay(floor) == 0 then LocalDay(floor) else LocalDay(floor) + 1 }

  /** For an instant after 1970 began, that is any instant inside the first second
      of a day but its start. */
  lemma LosesFractionExactly(floor: int)
    requires floor >= 0
    ensures LosesFraction(floor) <==> exists day :: DayStart(day) < floor < DayStart(day) + 1_000_000
  {
    MillisBounds(floor);
    var sec := Millis(floor) / 1000;
    assert sec * MICROS <= floor < sec * MICROS + MICROS;
    if day :| DayStart(day) < floor < DayStart(day) + 1_000_000 {
      assert DayStart(day) == (day * DAY_SECS - TZ_SECS) * MICROS;
      assert sec == day * DAY_SECS - TZ_SECS;
    }
  }

  lemma MillisBounds(micros: int)
    ensures 0 <= micros ==> 0 <= micros - Millis(micros) * 1000 < 1000
    ensures micros < 0 ==> -1000 < micros - Millis(micros) * 1000 <= 0
  {
  }

  lemma DayAround(floor: int)
    ensures var sec := Millis(floor) / 1000;
            sec == LocalDay(floor) * DAY_SECS - TZ_SECS + SecondOfDay(floor)
            && DayStart(LocalDay(floor)) == (sec - SecondOfDay(floor)) * MICROS
            && DayStart(LocalDay(floor) + 1) == (sec - SecondOfDay(floor) + DAY_SECS) * MICROS
            && DayStart(LocalDay(floor) - 1) == (sec - SecondOfDay(floor) - DAY_SECS) * MICROS
            && sec * 1000 <= Millis(floor) < sec * 1000 + 1000
  {
    var m := Millis(floor);
    var local := m / 1000 + TZ_SECS;
    assert local == local / DAY_SECS * DAY_SECS + local % DAY_SECS;
    assert m == m / 1000 * 1000 + m % 1000;
  }

  /** ceilToLocalDate is the first whole day at or after the floor exactly when
      no fraction of a second is lost at midnight; whole-second floors never
      lose one. */
  lemma CeilIsLeastExactly(floor: int)
    ensures LeastDayAtOrAfter(floor, CeilDay(floor)) <==> !LosesFraction(floor)
    ensures LosesFraction(floor) ==> LeastDayAtOrAfter(floor, CeilDay(floor) + 1)
  {
    MillisBounds(floor);
    DayAround(floor);
    var sec := Millis(floor) / 1000;
    if LosesFraction(floor) {
      var day :| DayStart(day) < floor && sec * MICROS == DayStart(day);
      assert sec == day * DAY_SECS - TZ_SECS;
      assert (sec + TZ_SECS) == day * DAY_SECS;
      assert SecondOfDay(floor) == 0 && LocalDay(floor) == day;
    } else if SecondOfDay(floor) == 0 {
      assert sec * MICROS == DayStart(LocalDay(floor));
      assert !(DayStart(LocalDay(floor)) < floor);
    }
  }

  /** The first whole day at or after the floor; when the formatter drops the
      fraction that keeps the floor from being midnight, the day before that. */
  method CeilToLocalDate(floor: int) returns (day: int)
    ensures LeastDayAtOrAfter(floor, day) <==> !LosesFraction(floor)
    ensures LosesFraction(floor) ==> LeastDayAtOrAfter(floor, day + 1)
  {
    day := LocalDay(floor);
    var midnight := SecondOfDay(floor) == 0;
    CeilIsLeastExactly(floor);
    if midnight { return; }
    day := day + 1;
  }

  /** Those two facts leave no choice. */
  lemma CeilIsDetermined(floor: int, day: int)
    requires LeastDayAtOrAfter(floor, day) <==> !LosesFraction(floor)
    requires LosesFraction(floor) ==> LeastDayAtOrAfter(floor, day + 1)
    ensures day == CeilDay(floor)
  {
    CeilIsLeastExactly(floor);
    var least := if LosesFraction(floor) then CeilDay(floor) + 1 else CeilDay(floor);
    assert LeastDayAtOrAfter(floor, least) && LeastDayAtOrAfter(floor, if LosesFraction(floor) then day + 1 else day);
  }

  /** A later floor never opens an earlier day. */
  lemma CeilIsMonotone(a: int, b: int)
    requires 0 <= a <= b
    ensures CeilDay(a) <= CeilDay(b)
  {
    var x, y := Millis(a) / 1000 + TZ_SECS, Millis(b) / 1000 + TZ_SECS;
    assert Millis(a) <= Millis(b) && x <= y;
    DivisionIsMonotone(x, y);
  }

  lemma DivisionIsMonotone(x: int, y: int)
    requires x <= y
    ensures x / DAY_SECS <= y / DAY_SECS
    ensures x / DAY_SECS == y / DAY_SECS ==> x % DAY_SECS <= y % DAY_SECS
  {
  }

  lemma WholeSecondsLoseNothing(secs: int)
    ensures !LosesFraction(secs * MICROS)
  {
    assert Millis(secs * MICROS) == secs * 1000;
    assert Millis(secs * MICROS) / 1000 == secs;
  }

  /** Half a second after midnight is taken for midnight itself. */
  lemma FractionIsLost()
    ensures LosesFraction(DayStart(1) + 500_000) && CeilDay(DayStart(1) + 500_000) == 1
  {
    assert DayStart(1) < DayStart(1) + 500_000;
  }
}
