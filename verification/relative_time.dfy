/** Relative time stamps ("5 minutes ago", "in 2 days") as the word list
    shows them: the distance between a time stamp and now is sorted into a
    bucket by fixed thresholds, counted in whole units by truncating
    division, and rendered in English with a singular unit for a count of
    one. The result is modelled as a structured value, its rendering, and
    a parser that reads the rendering back. */
module RelativeTime {
  import opened Common
  import opened Text

  const MinuteMs: int := 60000
  const HourMs: int := 3600000
  const DayMs: int := 86400000

  datatype Unit = Minute | Hour | Day | Week | Month | Year

  /** What `formatToRelativeTime` says: "Just now", a count of units in
      the past, or a count of units in the future. */
  datatype Relative = JustNow | Ago(count: nat, unit: Unit) | In(count: nat, unit: Unit)

  function Abs(x: int): nat {
    if x < 0 then -x else x
  }

  /** The length of one unit; a week is seven days, a month thirty and a
      year 365. It is also the smallest distance shown in that unit. */
  function UnitMs(u: Unit): int {
    match u
    case Minute => MinuteMs
    case Hour => HourMs
    case Day => DayMs
    case Week => 7 * DayMs
    case Month => 30 * DayMs
    case Year => 365 * DayMs
  }

  function Rank(u: Unit): nat {
    match u
    case Minute => 0
    case Hour => 1
    case Day => 2
    case Week => 3
    case Month => 4
    case Year => 5
  }

  /** The distance `a` is shown in unit `u`: from one `u` up to, but not
      including, one of the next larger unit. */
  predicate InBucket(a: int, u: Unit) {
    UnitMs(u) <= a &&
    match u
    case Minute => a < HourMs
    case Hour => a < DayMs
    case Day => a < 7 * DayMs
    case Week => a < 30 * DayMs
    case Month => a < 365 * DayMs
    case Year => true
  }

  /** The `when` ladder past "Just now". */
  function Bucket(a: int): (u: Unit)
    requires a >= MinuteMs
    ensures InBucket(a, u)
    ensures forall v: Unit :: InBucket(a, v) <==> v == u
  {
    if a < HourMs then Minute
    else if a < DayMs then Hour
    else if a < 7 * DayMs then Day
    else if a < 30 * DayMs then Week
    else if a < 365 * DayMs then Month
    else Year
  }

  /** The count shown for distance `a` in unit `u`, computed as the source
      does (`toDays(a) / 7` for weeks, and so on): the number of whole units
      in `a`. */
  function CountIn(a: int, u: Unit): (r: nat)
    requires a >= 0
    ensures r * UnitMs(u) <= a < (r + 1) * UnitMs(u)
  {
    match u
    case Minute => a / MinuteMs
    case Hour => a / HourMs
    case Day => a / DayMs
    case Week =>
      var d := a / DayMs;
      assert d / 7 * (7 * DayMs) == (d / 7 * 7) * DayMs;
      assert (d / 7 + 1) * (7 * DayMs) == (d / 7 * 7 + 7) * DayMs;
      d / 7
    case Month =>
      var d := a / DayMs;
      assert d / 30 * (30 * DayMs) == (d / 30 * 30) * DayMs;
      assert (d / 30 + 1) * (30 * DayMs) == (d / 30 * 30 + 30) * DayMs;
      d / 30
    case Year =>
      var d := a / DayMs;
      assert d / 365 * (365 * DayMs) == (d / 365 * 365) * DayMs;
      assert (d / 365 + 1) * (365 * DayMs) == (d / 365 * 365 + 365) * DayMs;
      d / 365
  }

  /** The counts each unit can show. */
  predicate InRange(n: nat, u: Unit) {
    1 <= n &&
    match u
    case Minute => n <= 59
    case Hour => n <= 23
    case Day => n <= 6
    case Week => n <= 4
    case Month => n <= 12
    case Year => true
  }

  lemma CountInRange(a: int, u: Unit)
    requires InBucket(a, u)
    ensures InRange(CountIn(a, u), u)
  {
    var n := CountIn(a, u);
    match u
    case Minute => assert n * MinuteMs < HourMs;
    case Hour => assert n * HourMs < DayMs;
    case Day => assert n * DayMs < 7 * DayMs;
    case Week => assert n * (7 * DayMs) < 30 * DayMs;
    case Month => assert n * (30 * DayMs) < 365 * DayMs;
    case Year =>
  }

  /** `formatToRelativeTime` before rendering. The direction follows the
      sign of `now - millis`: a positive difference is in the past. */
  function Relate(millis: int, now: int): (r: Relative)
    ensures r == JustNow <==> Abs(now - millis) < MinuteMs
    ensures r.Ago? <==> now - millis >= MinuteMs
    ensures r.In? <==> millis - now >= MinuteMs
    ensures !r.JustNow? ==> InBucket(Abs(now - millis), r.unit) && InRange(r.count, r.unit)
    ensures !r.JustNow? ==>
      r.count * UnitMs(r.unit) <= Abs(now - millis) < (r.count + 1) * UnitMs(r.unit)
  {
    var diff := now - millis;
    var a := Abs(diff);
    if a < MinuteMs then JustNow
    else
      var u := Bucket(a);
      CountInRange(a, u);
      if diff > 0 then Ago(CountIn(a, u), u) else In(CountIn(a, u), u)
  }

  /** A time stamp `d` ms before now and one `d` ms after now read the same
      apart from the direction. */
  lemma Mirror(now: int, d: nat)
    ensures Relate(now - d, now) == JustNow <==> Relate(now + d, now) == JustNow
    ensures Relate(now - d, now).Ago? ==>
      Relate(now + d, now) == In(Relate(now - d, now).count, Relate(now - d, now).unit)
  {
  }

  /** Further from now never reads as nearer: either a larger unit, or the
      same unit with a count at least as large. */
  lemma Monotone(a: int, b: int)
    requires MinuteMs <= a <= b
    ensures var u, v := Bucket(a), Bucket(b);
      Rank(u) < Rank(v) || (u == v && CountIn(a, u) <= CountIn(b, v))
  {
    var u, v := Bucket(a), Bucket(b);
    if u == v {
      var m, n := CountIn(a, u), CountIn(b, u);
      match u
      case Minute => assert m * MinuteMs <= b < (n + 1) * MinuteMs;
      case Hour => assert m * HourMs <= b < (n + 1) * HourMs;
      case Day => assert m * DayMs <= b < (n + 1) * DayMs;
      case Week => assert m * (7 * DayMs) <= b < (n + 1) * (7 * DayMs);
      case Month => assert m * (30 * DayMs) <= b < (n + 1) * (30 * DayMs);
      case Year => assert m * (365 * DayMs) <= b < (n + 1) * (365 * DayMs);
    }
  }

  // ---------------------------------------------------------------------
  // Rendering

  function Singular(u: Unit): string {
    match u
    case Minute => "minute"
    case Hour => "hour"
    case Day => "day"
    case Week => "week"
    case Month => "month"
    case Year => "year"
  }

  function Plural(u: Unit): string {
    match u
    case Minute => "minutes"
    case Hour => "hours"
    case Day => "days"
    case Week => "weeks"
    case Month => "months"
    case Year => "years"
  }

  /** The unit word, singular exactly for a count of one. */
  function UnitWord(n: nat, u: Unit): (r: string)
    ensures r == Singular(u) <==> n == 1
    ensures ' ' !in r && r != []
  {
    if n == 1 then Singular(u) else Plural(u)
  }

  /** The English text of a relative time stamp. */
  function Render(r: Relative): string {
    match r
    case JustNow => "Just now"
    case Ago(n, u) => Decimal(n) + " " + UnitWord(n, u) + " ago"
    case In(n, u) => "in " + Decimal(n) + " " + UnitWord(n, u)
  }

  /** `formatToRelativeTime(millis, now)`. */
  function FormatToRelativeTime(millis: int, now: int): (s: string)
    ensures s == "Just now" <==> Abs(now - millis) < MinuteMs
    ensures IsPrefix("in ", s) <==> millis - now >= MinuteMs
  {
    var r := Relate(millis, now);
    match r
    case JustNow =>
      assert Render(r)[..3] == "Jus";
      Render(r)
    case Ago(n, _) =>
      assert Render(r)[0] == Decimal(n)[0] && IsDigit(Render(r)[0]);
      Render(r)
    case In(_, _) =>
      assert Render(r)[0] == 'i';
      Render(r)
  }

  // ---------------------------------------------------------------------
  // Reading the text back

  function UnitOfWord(n: nat, w: string): Option<Unit> {
    if w == UnitWord(n, Minute) then Some(Minute)
    else if w == UnitWord(n, Hour) then Some(Hour)
    else if w == UnitWord(n, Day) then Some(Day)
    else if w == UnitWord(n, Week) then Some(Week)
    else if w == UnitWord(n, Month) then Some(Month)
    else if w == UnitWord(n, Year) then Some(Year)
    else None
  }

  /** "<digits> <unit word>". */
  function ParseAmount(t: string): Option<(nat, Unit)> {
    var i := IndexOf(t, ' ');
    if i <= 0 then None
    else
      var digits, word := t[..i], t[i + 1..];
      if forall k :: 0 <= k < |digits| ==> IsDigit(digits[k]) then
        var n := ParseDecimal(digits);
        match UnitOfWord(n, word)
        case Some(u) => Some((n, u))
        case None => None
      else None
  }

  function Parse(s: string): Option<Relative> {
    if s == "Just now" then Some(JustNow)
    else if IsPrefix("in ", s) then
      match ParseAmount(s[3..])
      case Some((n, u)) => Some(In(n, u))
      case None => None
    else if |s| >= 4 && s[|s| - 4..] == " ago" then
      match ParseAmount(s[..|s| - 4])
      case Some((n, u)) => Some(Ago(n, u))
      case None => None
    else None
  }

  lemma UnitOfWordRoundTrip(n: nat, u: Unit)
    ensures UnitOfWord(n, UnitWord(n, u)) == Some(u)
  {
  }

  lemma ParseAmountRoundTrip(n: nat, u: Unit)
    ensures ParseAmount(Decimal(n) + " " + UnitWord(n, u)) == Some((n, u))
  {
    var d := Decimal(n);
    var t := d + " " + UnitWord(n, u);
    assert ' ' !in d by {
      forall k | 0 <= k < |d| ensures d[k] != ' ' {
        assert IsDigit(d[k]);
      }
    }
    assert t[|d|] == ' ';
    assert t[..|d|] == d;
    assert ' ' !in t[..|d|];
    assert IndexOf(t, ' ') == |d|;
    assert t[|d| + 1..] == UnitWord(n, u);
    DecimalRoundTrip(n);
    UnitOfWordRoundTrip(n, u);
  }

  /** The rendering loses nothing: reading it back gives the value that was
      rendered, so different relative stamps never read alike. */
  lemma ParseRender(r: Relative)
    ensures Parse(Render(r)) == Some(r)
  {
    match r
    case JustNow =>
    case Ago(n, u) => ParseAgo(n, u);
    case In(n, u) => ParseIn(n, u);
  }

  lemma ParseAgo(n: nat, u: Unit)
    ensures Parse(Render(Ago(n, u))) == Some(Ago(n, u))
  {
    hide ParseAmount, Decimal;
    var body := Decimal(n) + " " + UnitWord(n, u);
    var s := body + " ago";
    assert s == Render(Ago(n, u));
    assert s[0] == Decimal(n)[0];
    assert IsDigit(s[0]);
    assert s != "Just now" && !IsPrefix("in ", s);
    assert s[|s| - 4..] == " ago";
    assert s[..|s| - 4] == body;
    ParseAmountRoundTrip(n, u);
  }

  lemma ParseIn(n: nat, u: Unit)
    ensures Parse(Render(In(n, u))) == Some(In(n, u))
  {
    hide ParseAmount, Decimal;
    var body := Decimal(n) + " " + UnitWord(n, u);
    var s := "in " + body;
    assert s == Render(In(n, u));
    assert s[0] == 'i';
    assert s != "Just now" && IsPrefix("in ", s);
    assert s[3..] == body;
    ParseAmountRoundTrip(n, u);
  }

  lemma RenderInjective(r: Relative, q: Relative)
    requires Render(r) == Render(q)
    ensures r == q
  {
    ParseRender(r);
    ParseRender(q);
  }

  // ---------------------------------------------------------------------
  // formatSmart

  /** What `formatSmart` shows: the relative text, or a calendar date in
      one of two `SimpleDateFormat` patterns (the date itself depends on the
      locale and time zone and is not modelled). */
  datatype Smart = Relative(text: string) | Calendar(pattern: string)

  function FormatSmart(millis: int, now: int): (r: Smart)
    ensures r.Relative? <==> Abs(now - millis) < 7 * DayMs
    ensures r.Relative? ==> r.text == FormatToRelativeTime(millis, now)
    ensures r.Calendar? ==> (r.pattern == "MMM dd" <==> Abs(now - millis) < 365 * DayMs)
  {
    var diff := Abs(now - millis);
    if diff < 7 * DayMs then Relative(FormatToRelativeTime(millis, now))
    else if diff < 365 * DayMs then Calendar("MMM dd")
    else Calendar("MMM dd, yyyy")
  }

  /** The relative branch of `formatSmart` only ever counts minutes, hours
      or days. */
  lemma SmartRelativeUnits(millis: int, now: int)
    requires FormatSmart(millis, now).Relative?
    ensures var r := Relate(millis, now);
      r.JustNow? || r.unit == Minute || r.unit == Hour || r.unit == Day
  {
  }
}
