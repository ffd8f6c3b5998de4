/** `formatTime`: how long ago a message was sent, as the conversation list
    shows it. Timestamps are integer milliseconds. The source floors each
    quotient with `Math.floor`; for a positive divisor Dafny's `/` on `int`
    is the same floor division, negative differences included. */
module TimeBuckets {

  const MsPerMinute: int := 60000
  const MsPerHour: int := 3600000
  const MsPerDay: int := 86400000

  /** `'Ahora'`, `'<n>m'`, `'<n>h'`, `'<n>d'`, or the locale-formatted date. */
  datatype TimeBucket = Now | Minutes(n: int) | Hours(n: int) | Days(n: int) | OlderDate

  function FormatTime(createdAt: int, now: int): (r: TimeBucket)
    ensures r == Now <==> now - createdAt < MsPerMinute
    ensures r.Minutes? <==> MsPerMinute <= now - createdAt < MsPerHour
    ensures r.Hours? <==> MsPerHour <= now - createdAt < MsPerDay
    ensures r.Days? <==> MsPerDay <= now - createdAt < 7 * MsPerDay
    ensures r == OlderDate <==> 7 * MsPerDay <= now - createdAt
    ensures r.Minutes? ==>
              (1 <= r.n < 60 && r.n * MsPerMinute <= now - createdAt < (r.n + 1) * MsPerMinute)
    ensures r.Hours? ==>
              (1 <= r.n < 24 && r.n * MsPerHour <= now - createdAt < (r.n + 1) * MsPerHour)
    ensures r.Days? ==>
              (1 <= r.n < 7 && r.n * MsPerDay <= now - createdAt < (r.n + 1) * MsPerDay)
  {
    var diffMs := now - createdAt;
    var diffMins := diffMs / MsPerMinute;
    var diffHours := diffMs / MsPerHour;
    var diffDays := diffMs / MsPerDay;
    if diffMins < 1 then Now
    else if diffMins < 60 then Minutes(diffMins)
    else if diffHours < 24 then Hours(diffHours)
    else if diffDays < 7 then Days(diffDays)
    else OlderDate
  }

  /** Buckets in order of age. */
  function Rank(b: TimeBucket): nat
  {
    match b
    case Now => 0
    case Minutes(_) => 1
    case Hours(_) => 2
    case Days(_) => 3
    case OlderDate => 4
  }

  /** The later the clock reads, the older the bucket (never the reverse). */
  lemma FormatTimeMonotone(createdAt: int, now1: int, now2: int)
    requires now1 <= now2
    ensures Rank(FormatTime(createdAt, now1)) <= Rank(FormatTime(createdAt, now2))
    ensures FormatTime(createdAt, now1).Minutes? && FormatTime(createdAt, now2).Minutes? ==>
              FormatTime(createdAt, now1).n <= FormatTime(createdAt, now2).n
  {
  }
}
