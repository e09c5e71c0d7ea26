/** The UWUPTIME line of print_info: the uptime in seconds, a C `long`, shown as
    minutes, as hours and minutes, or as days, hours and minutes. */
module Uptime {
  /** The numbers one of the three printf formats shows. */
  datatype Span =
    | Minutes(m: int)            // `%lim`
    | Hours(h: int, m: int)      // `%lih, %lim`
    | Days(d: int, h: int, m: int) // `%lid, %lih, %lim`

  /** C's `/` on integers: the quotient truncated toward zero. */
  function Quot(a: int, b: int): (q: int)
    requires b > 0
    ensures a >= 0 ==> b * q <= a < b * q + b
    ensures a < 0 ==> b * q - b < a <= b * q
  {
    if a >= 0 then a / b else -((-a) / b)
  }

  /** C's `%` on integers: the remainder takes the sign of the dividend. */
  function Rem(a: int, b: int): (r: int)
    requires b > 0
    ensures a == b * Quot(a, b) + r
    ensures a >= 0 ==> 0 <= r < b
    ensures a < 0 ==> -b < r <= 0
  {
    a - b * Quot(a, b)
  }

  /** The switch on the uptime: `case 0 ... 3599`, `case 3600 ... 86399`, default. */
  function Split(uptime: int): (s: Span)
    ensures s.Minutes? <==> 0 <= uptime < 3600
    ensures s.Hours? <==> 3600 <= uptime < 86400
    ensures s.Days? <==> uptime < 0 || uptime >= 86400
  {
    var minutes := Rem(Quot(uptime, 60), 60);
    if 0 <= uptime <= 3599 then Minutes(minutes)
    else if 3600 <= uptime <= 86399 then Hours(Quot(uptime, 3600), minutes)
    else Days(Quot(uptime, 86400), Rem(Quot(uptime, 3600), 24), minutes)
  }

  /** The seconds a span stands for. */
  function Seconds(s: Span): int {
    match s
    case Minutes(m) => 60 * m
    case Hours(h, m) => 3600 * h + 60 * m
    case Days(d, h, m) => 86400 * d + 3600 * h + 60 * m
  }

  /** Dividing by 60 and then by 60 again is dividing by 3600; then by 24, by 86400. */
  lemma NestedQuotients(a: int)
    ensures Quot(Quot(a, 60), 60) == Quot(a, 3600)
    ensures Quot(Quot(a, 3600), 24) == Quot(a, 86400)
  {
    var b := if a >= 0 then a else -a;
    assert b / 60 / 60 == b / 3600;
    assert b / 3600 / 24 == b / 86400;
  }

  /** Whatever the branch, the span is the uptime cut down to whole minutes, toward
      zero. */
  lemma SplitSeconds(uptime: int)
    ensures Seconds(Split(uptime)) == 60 * Quot(uptime, 60)
  {
    NestedQuotients(uptime);
    var q60 := Quot(uptime, 60);
    var q3600 := Quot(uptime, 3600);
    assert q60 == 60 * q3600 + Rem(q60, 60);
    assert q3600 == 24 * Quot(uptime, 86400) + Rem(q3600, 24);
  }

  /** A running machine's uptime: each field is in range, the days are at least
      one, and the span is the uptime to the minute below it. */
  lemma UptimeShown(uptime: int)
    requires uptime >= 0
    ensures Seconds(Split(uptime)) <= uptime < Seconds(Split(uptime)) + 60
    ensures match Split(uptime)
      case Minutes(m) => 0 <= m < 60
      case Hours(h, m) => 1 <= h < 24 && 0 <= m < 60
      case Days(d, h, m) => 1 <= d && 0 <= h < 24 && 0 <= m < 60
  {
    SplitSeconds(uptime);
    NestedQuotients(uptime);
  }

  /** A negative `long` falls to the default case; truncation makes every field at
      most zero and the span the uptime to the minute above it. */
  lemma NegativeUptime(uptime: int)
    requires uptime < 0
    ensures Split(uptime).Days?
    ensures Seconds(Split(uptime)) - 60 < uptime <= Seconds(Split(uptime))
    ensures Split(uptime).d <= 0 && -24 < Split(uptime).h <= 0 && -60 < Split(uptime).m <= 0
  {
    SplitSeconds(uptime);
  }
}
