/**
 * Calendar functions on dates written as day numbers (days since 1970-01-01, a Thursday).
 */
module Calendar {

  /**
   * The ISO week of a day, as the number of Mondays since 1969-12-29. ISO weeks run Monday to
   * Sunday, and pandas' (iso_year, iso_week) pair numbers them consecutively, so this index and
   * the pair identify the same week and order weeks in the same way.
   */
  function IsoWeek(d: int): int
  {
    (d + 3) / 7
  }

  lemma IsoWeekMonotone(d: int, e: int)
    requires d <= e
    ensures IsoWeek(d) <= IsoWeek(e)
  {
    var q, r := (d + 3) / 7, (d + 3) % 7;
    var q', r' := (e + 3) / 7, (e + 3) % 7;
    assert d + 3 == 7 * q + r && e + 3 == 7 * q' + r';
  }

  /** The Gregorian calendar year of a day (Timestamp.year), by the civil-from-days algorithm. */
  function Year(d: int): int
  {
    var z := d + 719468;
    var era := z / 146097;
    var doe := z - era * 146097;
    var yoe := (doe - doe / 1460 + doe / 36524 - doe / 146096) / 365;
    var doy := doe - (365 * yoe + yoe / 4 - yoe / 100);
    var mp := (5 * doy + 2) / 153;
    var month := if mp < 10 then mp + 3 else mp - 9;
    yoe + era * 400 + (if month <= 2 then 1 else 0)
  }
}
