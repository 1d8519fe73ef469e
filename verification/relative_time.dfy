/**
 * `formatDate`, written out identically in the home, wallet and notifications
 * screens: the seconds elapsed since a timestamp, shown in the largest of four
 * units that fits. The elapsed seconds (`Math.floor((now - date) / 1000)`)
 * are the input; the clock is not modelled.
 */
module RelativeTime {

  /** "n secondi fa", "n minuti fa", "n ore fa", "n giorni fa". */
  datatype Elapsed = Seconds(n: int) | Minutes(n: int) | Hours(n: int) | Days(n: int)

  const Minute: int := 60
  const Hour: int := 3600
  const Day: int := 86400

  /** `formatDate(date)` for `diffInSeconds` elapsed seconds. */
  function FormatDate(diffInSeconds: int): (r: Elapsed)
    // seconds are shown as they are, even when the timestamp lies in the future
    ensures r.Seconds? <==> diffInSeconds < Minute
    ensures r.Seconds? ==> r.n == diffInSeconds
    // every other unit shows a whole count that the elapsed time lies within
    ensures r.Minutes? ==> Minute * r.n <= diffInSeconds < Minute * (r.n + 1) && diffInSeconds < Hour
    ensures r.Hours? ==> Hour * r.n <= diffInSeconds < Hour * (r.n + 1) && Hour <= diffInSeconds < Day
    ensures r.Days? ==> Day * r.n <= diffInSeconds < Day * (r.n + 1) && Day <= diffInSeconds
  {
    if diffInSeconds < Minute then Seconds(diffInSeconds)
    else if diffInSeconds < Hour then Minutes(diffInSeconds / Minute)
    else if diffInSeconds < Day then Hours(diffInSeconds / Hour)
    else Days(diffInSeconds / Day)
  }

  /** The counts stay inside their unit: 1..59 minutes, 1..23 hours, at least one day. */
  lemma FormatDateBounds(diffInSeconds: int)
    ensures var r := FormatDate(diffInSeconds);
            && (r.Minutes? ==> 1 <= r.n <= 59)
            && (r.Hours? ==> 1 <= r.n <= 23)
            && (r.Days? ==> r.n >= 1)
  {
  }

  /** The unit's rank, and the age it stands for in seconds (rounded down to the unit). */
  function Rank(e: Elapsed): nat {
    match e
    case Seconds(_) => 0
    case Minutes(_) => 1
    case Hours(_) => 2
    case Days(_) => 3
  }

  function InSeconds(e: Elapsed): int {
    match e
    case Seconds(n) => n
    case Minutes(n) => Minute * n
    case Hours(n) => Hour * n
    case Days(n) => Day * n
  }

  /** Older timestamps never get a smaller unit or a smaller shown age. */
  lemma FormatDateMonotone(d1: int, d2: int)
    requires d1 <= d2
    ensures Rank(FormatDate(d1)) <= Rank(FormatDate(d2))
    ensures InSeconds(FormatDate(d1)) <= InSeconds(FormatDate(d2))
  {
    var r1 := FormatDate(d1);
    var r2 := FormatDate(d2);
    if Rank(r1) == Rank(r2) && !r1.Seconds? {
      // the same unit: the count is the elapsed time divided by the unit
      var unit := if r1.Minutes? then Minute else if r1.Hours? then Hour else Day;
      assert unit * r1.n <= d1 <= d2 < unit * (r2.n + 1);
      assert r1.n <= r2.n;
      assert InSeconds(r1) == unit * r1.n && InSeconds(r2) == unit * r2.n;
    } else if r1.Minutes? && r2.Hours? {
      assert InSeconds(r1) <= d1 < Hour <= InSeconds(r2);
    } else if r1.Hours? && r2.Days? {
      assert InSeconds(r1) <= d1 < Day <= InSeconds(r2);
    } else if r1.Minutes? && r2.Days? {
      assert InSeconds(r1) <= d1 < Day <= InSeconds(r2);
    }
  }

  /** The shown age never exceeds the real one and is off by less than one unit. */
  lemma FormatDateError(diffInSeconds: int)
    requires diffInSeconds >= 0
    ensures var r := FormatDate(diffInSeconds);
            && InSeconds(r) <= diffInSeconds
            && diffInSeconds - InSeconds(r) < (match r
                                                case Seconds(_) => 1
                                                case Minutes(_) => Minute
                                                case Hours(_) => Hour
                                                case Days(_) => Day)
  {
  }
}
