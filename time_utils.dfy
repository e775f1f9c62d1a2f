/** The two date helpers of the backend: shifting an instant by whole minutes,
    and building the UTC timestamp string `YYYY-MM-DDTHH:MM:00Z` from a date
    and a clock time before handing it to the date parser. */
module TimeUtils {
  import opened Common

  const MsPerMinute: int := 60000

  /** `addMinutes(date, minutes)`: the instant `minutes` minutes later. */
  function AddMinutes(d: int, m: int): int
  {
    d + m * MsPerMinute
  }

  lemma AddMinutesZero(d: int)
    ensures AddMinutes(d, 0) == d
  {
  }

  /** Two shifts add up. */
  lemma AddMinutesCompose(d: int, a: int, b: int)
    ensures AddMinutes(AddMinutes(d, a), b) == AddMinutes(d, a + b)
  {
  }

  /** A positive shift moves strictly forward, and a larger shift further. */
  lemma AddMinutesIncreasing(d: int, a: int, b: int)
    requires a < b
    ensures AddMinutes(d, a) < AddMinutes(d, b)
    ensures a == 0 ==> d < AddMinutes(d, b)
  {
    assert (b - a) * MsPerMinute > 0;
  }

  /** The string `${date}T${time}:00Z`: the date, a `T`, the clock time, and
      the seconds and UTC designator. */
  function UtcIsoString(date: string, time: string): (r: string)
    ensures |r| == |date| + |time| + 5
    ensures r[..|date|] == date && r[|date|] == 'T'
    ensures r[|date| + 1..|date| + 1 + |time|] == time
    ensures r[|r| - 4..] == ":00Z"
  {
    date + "T" + time + ":00Z"
  }

  /** For dates of one fixed width (`YYYY-MM-DD`) the string determines both
      of its parts. */
  lemma UtcIsoStringInjective(d1: string, t1: string, d2: string, t2: string)
    requires |d1| == |d2| && UtcIsoString(d1, t1) == UtcIsoString(d2, t2)
    ensures d1 == d2 && t1 == t2
  {
    var r := UtcIsoString(d1, t1);
    assert d1 == r[..|d1|] == d2;
    assert t1 == r[|d1| + 1..|d1| + 1 + |t1|] == t2;
  }

  /** `combineDateAndTimeToUTC(date, time)`: the instant the date parser reads
      off that string; `None` is an invalid date. */
  function CombineDateAndTimeToUtc(date: string, time: string, parse: string -> Option<int>): Option<int>
  {
    parse(UtcIsoString(date, time))
  }
}
