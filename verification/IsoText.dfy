/** The timestamp text of the bus tables and its byte-wise order. An instant is
    a number of microseconds since 0001-01-01T00:00:00Z. */
module IsoText {
  import opened Prelude
  import opened Calendar

  /** Microseconds in the years 1 to 9999. */
  const ALL_TIME := 315_537_897_600_000_000

  predicate IsInstant(t: int) {
    0 <= t < ALL_TIME
  }

  type Instant = t: int | IsInstant(t) witness 0

  /** The UTC date an instant falls on, as a day number from 0. */
  function DayOf(t: int): (d: int)
    ensures d * 86_400_000_000 <= t < (d + 1) * 86_400_000_000
    ensures IsInstant(t) ==> 0 <= d < MAX_ORDINAL
  {
    t / 86_400_000_000
  }

  function SecondOf(t: int): (s: int)
    ensures 0 <= s < 86_400
  {
    t % 86_400_000_000 / 1_000_000
  }

  function MicroOf(t: int): (us: int)
    ensures 0 <= us < 1_000_000
  {
    t % 1_000_000
  }

  lemma Parts(t: int)
    ensures t == DayOf(t) * 86_400_000_000 + SecondOf(t) * 1_000_000 + MicroOf(t)
  {}

  // ---- byte-wise order of text, as SQLite compares TEXT columns ----

  predicate Below(a: string, b: string) {
    if b == [] then false
    else if a == [] then true
    else a[0] < b[0] || (a[0] == b[0] && Below(a[1..], b[1..]))
  }

  lemma {:induction false} BelowConcat(a: string, b: string, c: string, d: string)
    requires |a| == |c|
    ensures Below(a + b, c + d) <==> Below(a, c) || (a == c && Below(b, d))
  {
    if a == [] {
      assert a + b == b && c + d == d;
    } else {
      assert (a + b)[1..] == a[1..] + b && (c + d)[1..] == c[1..] + d;
      BelowConcat(a[1..], b, c[1..], d);
      assert a == c <==> a[0] == c[0] && a[1..] == c[1..];
    }
  }

  // ---- fixed-width decimal fields ----

  function Pow10(w: nat): (p: int)
    ensures p >= 1
  {
    if w == 0 then 1 else 10 * Pow10(w - 1)
  }

  function DigitChar(d: int): (c: char)
    requires 0 <= d <= 9
  {
    '0' + (d as char)
  }

  function Digits(n: int, w: nat): (s: string)
    requires 0 <= n < Pow10(w)
    ensures |s| == w
  {
    if w == 0 then "" else Digits(n / 10, w - 1) + [DigitChar(n % 10)]
  }

  lemma {:induction false} DigitsOrder(m: int, n: int, w: nat)
    requires 0 <= m < Pow10(w) && 0 <= n < Pow10(w)
    ensures Below(Digits(m, w), Digits(n, w)) <==> m < n
    ensures Digits(m, w) == Digits(n, w) <==> m == n
  {
    if w > 0 {
      var p, q := Digits(m / 10, w - 1), Digits(n / 10, w - 1);
      var x, y := [DigitChar(m % 10)], [DigitChar(n % 10)];
      DigitsOrder(m / 10, n / 10, w - 1);
      BelowConcat(p, x, q, y);
      assert Below(x, y) <==> m % 10 < n % 10;
      assert (p + x)[..w - 1] == p && (q + y)[..w - 1] == q;
      assert (p + x)[w - 1] == x[0] && (q + y)[w - 1] == y[0];
    }
  }

  function ParseDigits(s: string): (n: Option<int>) {
    if s == "" then Some(0)
    else
      var c := s[|s| - 1];
      var p := ParseDigits(s[..|s| - 1]);
      if '0' <= c <= '9' && p.Some? then Some(10 * p.value + (c as int - '0' as int)) else None
  }

  lemma {:induction false} DigitsRoundTrip(n: int, w: nat)
    requires 0 <= n < Pow10(w)
    ensures ParseDigits(Digits(n, w)) == Some(n)
  {
    if w > 0 {
      DigitsRoundTrip(n / 10, w - 1);
      var s := Digits(n, w);
      assert s[..|s| - 1] == Digits(n / 10, w - 1);
    }
  }

  // ---- the text forms ----

  lemma Powers()
    ensures Pow10(2) == 100 && Pow10(4) == 10_000 && Pow10(6) == 1_000_000
  {}

  /** YYYY-MM-DD */
  function DateText(d: Date): (s: string)
    requires ValidDate(d)
    ensures |s| == 10
  {
    Powers();
    Digits(d.year, 4) + "-" + Digits(d.month, 2) + "-" + Digits(d.day, 2)
  }

  /** HH:MM:SS for a second of the day */
  function ClockText(s: int): (r: string)
    requires 0 <= s < 86_400
    ensures |r| == 8
  {
    Powers();
    Digits(s / 3600, 2) + ":" + Digits(s / 60 % 60, 2) + ":" + Digits(s % 60, 2)
  }

  /** Microseconds, left out when zero, and the UTC offset. */
  function Tail(us: int): (r: string)
    requires 0 <= us < 1_000_000
  {
    Powers();
    (if us == 0 then "" else "." + Digits(us, 6)) + "+00:00"
  }

  function DateAt(t: Instant): (d: Date)
    ensures ValidDate(d) && Ordinal(d) == DayOf(t) + 1
  {
    FromOrdinal(DayOf(t) + 1)
  }

  /** `datetime.isoformat()` of a UTC instant. */
  function Iso(t: Instant): string {
    DateText(DateAt(t)) + "T" + ClockText(SecondOf(t)) + Tail(MicroOf(t))
  }

  /** SQLite's `datetime()` text: a space for the `T`, whole seconds, no offset. */
  function SqliteText(t: Instant): string {
    DateText(DateAt(t)) + " " + ClockText(SecondOf(t))
  }

  // ---- order ----

  lemma DateTextOrder(a: Date, b: Date)
    requires ValidDate(a) && ValidDate(b)
    ensures Below(DateText(a), DateText(b)) <==> DateBefore(a, b)
    ensures DateText(a) == DateText(b) <==> a == b
  {
    Powers();
    var y, y', m, m', d, d' := Digits(a.year, 4), Digits(b.year, 4), Digits(a.month, 2),
      Digits(b.month, 2), Digits(a.day, 2), Digits(b.day, 2);
    DigitsOrder(a.year, b.year, 4);
    DigitsOrder(a.month, b.month, 2);
    DigitsOrder(a.day, b.day, 2);
    BelowConcat(y + "-" + m + "-", d, y' + "-" + m' + "-", d');
    ThreeFields(y, m, y', m', "-");
    SplitEqual(y + "-" + m + "-", d, y' + "-" + m' + "-", d');
  }

  lemma ClockTextOrder(a: int, b: int)
    requires 0 <= a < 86_400 && 0 <= b < 86_400
    ensures Below(ClockText(a), ClockText(b)) <==> a < b
    ensures ClockText(a) == ClockText(b) <==> a == b
  {
    Powers();
    var h, h', m, m', s, s' := Digits(a / 3600, 2), Digits(b / 3600, 2), Digits(a / 60 % 60, 2),
      Digits(b / 60 % 60, 2), Digits(a % 60, 2), Digits(b % 60, 2);
    DigitsOrder(a / 3600, b / 3600, 2);
    DigitsOrder(a / 60 % 60, b / 60 % 60, 2);
    DigitsOrder(a % 60, b % 60, 2);
    BelowConcat(h + ":" + m + ":", s, h' + ":" + m' + ":", s');
    ThreeFields(h, m, h', m', ":");
    SplitEqual(h + ":" + m + ":", s, h' + ":" + m' + ":", s');
    ClockFields(a);
    ClockFields(b);
  }

  lemma ClockFields(a: int)
    requires 0 <= a < 86_400
    ensures a == 3600 * (a / 3600) + 60 * (a / 60 % 60) + a % 60
  {}

  lemma SplitEqual(a: string, b: string, c: string, d: string)
    requires |a| == |c|
    ensures a + b == c + d <==> a == c && b == d
  {
    assert (a + b)[..|a|] == a && (a + b)[|a|..] == b;
    assert (c + d)[..|c|] == c && (c + d)[|c|..] == d;
  }

  lemma ThreeFields(x: string, y: string, x': string, y': string, sep: string)
    requires |x| == |x'| && |y| == |y'| && |sep| == 1
    ensures Below(x + sep + y + sep, x' + sep + y' + sep)
      <==> Below(x, x') || (x == x' && Below(y, y'))
    ensures x + sep + y + sep == x' + sep + y' + sep <==> x == x' && y == y'
  {
    BelowConcat(x + sep + y, sep, x' + sep + y', sep);
    BelowConcat(x + sep, y, x' + sep, y');
    BelowConcat(x, sep, x', sep);
    SplitEqual(x + sep + y, sep, x' + sep + y', sep);
    SplitEqual(x + sep, y, x' + sep, y');
    SplitEqual(x, sep, x', sep);
  }

  /** The omitted fraction sorts first because `+` is below `.`. */
  lemma TailOrder(a: int, b: int)
    requires 0 <= a < 1_000_000 && 0 <= b < 1_000_000
    ensures Below(Tail(a), Tail(b)) <==> a < b
    ensures Tail(a) == Tail(b) <==> a == b
  {
    Powers();
    if a != 0 && b != 0 {
      DigitsOrder(a, b, 6);
      var x, y := "." + Digits(a, 6), "." + Digits(b, 6);
      BelowConcat(".", Digits(a, 6), ".", Digits(b, 6));
      BelowConcat(x, "+00:00", y, "+00:00");
      BelowSelf("+00:00");
      BelowSelf(".");
      SplitEqual(x, "+00:00", y, "+00:00");
      SplitEqual(".", Digits(a, 6), ".", Digits(b, 6));
    } else if a == 0 && b == 0 {
      BelowSelf(Tail(a));
    } else if a == 0 {
      assert Tail(a)[0] == '+' && Tail(b)[0] == '.';
    } else {
      assert Tail(a)[0] == '.' && Tail(b)[0] == '+';
    }
  }

  lemma {:induction false} BelowSelf(s: string)
    ensures !Below(s, s)
  {
    if s != [] {
      BelowSelf(s[1..]);
    }
  }

  lemma DateAtOrder(a: Instant, b: Instant)
    ensures DateBefore(DateAt(a), DateAt(b)) <==> DayOf(a) < DayOf(b)
    ensures DateAt(a) == DateAt(b) <==> DayOf(a) == DayOf(b)
  {
    OrdinalOrder(DateAt(a), DateAt(b));
  }

  /** Four parts, the first three of fixed width. */
  lemma PartsOrder(d: string, c: string, t: string, d': string, c': string, t': string)
    requires |d| == |d'| && |c| == |c'|
    ensures Below(d + "T" + c + t, d' + "T" + c' + t')
      <==> Below(d, d') || (d == d' && (Below(c, c') || (c == c' && Below(t, t'))))
    ensures d + "T" + c + t == d' + "T" + c' + t' <==> d == d' && c == c' && t == t'
  {
    BelowConcat(d + "T" + c, t, d' + "T" + c', t');
    BelowConcat(d + "T", c, d' + "T", c');
    BelowConcat(d, "T", d', "T");
    BelowSelf("T");
    SplitEqual(d + "T" + c, t, d' + "T" + c', t');
    SplitEqual(d + "T", c, d' + "T", c');
    SplitEqual(d, "T", d', "T");
  }

  /** Byte order of `isoformat()` text is time order, whether or not either side
      carries a fraction. */
  lemma TextOrderIsTimeOrder(a: Instant, b: Instant)
    ensures Below(Iso(a), Iso(b)) <==> a < b
    ensures Iso(a) == Iso(b) <==> a == b
  {
    PartsOrder(DateText(DateAt(a)), ClockText(SecondOf(a)), Tail(MicroOf(a)),
               DateText(DateAt(b)), ClockText(SecondOf(b)), Tail(MicroOf(b)));
    DateTextOrder(DateAt(a), DateAt(b));
    DateAtOrder(a, b);
    ClockTextOrder(SecondOf(a), SecondOf(b));
    TailOrder(MicroOf(a), MicroOf(b));
    Parts(a);
    Parts(b);
  }

  lemma TAboveSpace(d: string, c: string, d': string, c': string)
    requires |d| == |d'|
    ensures Below(d + "T" + c, d' + " " + c') <==> Below(d, d')
  {
    assert d + "T" + c == d + ("T" + c) && d' + " " + c' == d' + (" " + c');
    BelowConcat(d, "T" + c, d', " " + c');
    assert ("T" + c)[0] == 'T' && (" " + c')[0] == ' ';
  }

  /** Against `datetime()` text only the dates count: the `T` is above the space. */
  lemma IsoAgainstSqliteText(c: Instant, k: Instant)
    ensures Below(Iso(c), SqliteText(k)) <==> DayOf(c) < DayOf(k)
  {
    var d, rest := DateText(DateAt(c)), ClockText(SecondOf(c)) + Tail(MicroOf(c));
    assert Iso(c) == d + "T" + rest;
    TAboveSpace(d, rest, DateText(DateAt(k)), ClockText(SecondOf(k)));
    DateTextOrder(DateAt(c), DateAt(k));
    DateAtOrder(c, k);
  }

  /** What tells the forms apart: offset, `T` and fraction. */
  lemma FormsDiffer(t: Instant)
    ensures |IsoZ(t)| == |Iso(t)| - 5 && IsoZ(t)[|IsoZ(t)| - 1..] == "Z"
    ensures Iso(t) == IsoZ(t)[..|IsoZ(t)| - 1] + "+00:00"
    ensures |Iso(t)| >= 19 && SqliteText(t) == Iso(t)[..10] + " " + Iso(t)[11..19]
    ensures MicroOf(t) == 0 <==> |Iso(t)| == 25
  {
    var d, c, us := DateText(DateAt(t)), ClockText(SecondOf(t)), MicroOf(t);
    var frac := if us == 0 then "" else Tail(us)[..7];
    Powers();
    assert Tail(us) == frac + "+00:00" && TailZ(us) == frac + "Z";
    assert Iso(t) == (d + "T" + c + frac) + "+00:00" && IsoZ(t) == (d + "T" + c + frac) + "Z";
    Slices(d, c, Tail(us));
    hide DateText, ClockText, Digits;
  }

  function Pair(n: int): string
    requires 0 <= n < 100
  {
    [DigitChar(n / 10), DigitChar(n % 10)]
  }

  /** Even widths go by pairs of digits. */
  lemma Pairs(n: int, w: nat)
    requires 0 <= n < Pow10(w + 2) && n / 100 < Pow10(w)
    ensures Digits(n, w + 2) == Digits(n / 100, w) + Pair(n % 100)
  {
    assert Digits(n, w + 2) == Digits(n / 10, w + 1) + [DigitChar(n % 10)];
    assert Digits(n / 10, w + 1) == Digits(n / 10 / 10, w) + [DigitChar(n / 10 % 10)];
  }

  lemma TwoDigits(n: int)
    requires 0 <= n < 100 == Pow10(2)
    ensures Digits(n, 2) == Pair(n)
  {
    Pairs(n, 0);
  }

  lemma FourDigits(n: int)
    requires 0 <= n < 10_000 == Pow10(4) && Pow10(2) == 100
    ensures Digits(n, 4) == Pair(n / 100) + Pair(n % 100)
  {
    Pairs(n, 2);
    TwoDigits(n / 100);
    hide Digits, Pair, Pow10;
  }

  lemma EndDates()
    ensures DateText(Date(1, 1, 1)) == "0001-01-01" && DateText(Date(9999, 12, 31)) == "9999-12-31"
  {
    Powers();
    hide Digits, Pow10;
    FourDigits(1);
    FourDigits(9999);
    TwoDigits(1);
    TwoDigits(12);
    TwoDigits(31);
  }

  lemma EndClocks()
    ensures ClockText(0) == "00:00:00" && ClockText(86_399) == "23:59:59"
  {
    Powers();
    hide Digits, Pow10;
    TwoDigits(0);
    TwoDigits(23);
    TwoDigits(59);
  }

  lemma EndTail()
    ensures Tail(0) == "+00:00" && Tail(999_999) == ".999999+00:00"
  {
    Powers();
    hide Digits, Pow10;
    Pairs(999_999, 4);
    FourDigits(9_999);
  }

  lemma IsoOf(t: Instant, d: Date)
    requires ValidDate(d) && Ordinal(d) == DayOf(t) + 1
    ensures Iso(t) == DateText(d) + "T" + ClockText(SecondOf(t)) + Tail(MicroOf(t))
  {
    OrdinalOrder(DateAt(t), d);
    hide DateText, ClockText, Tail, Ordinal;
  }

  /** The first and the last instant. */
  lemma IsoEnds()
    ensures Iso(0) == "0001-01-01T00:00:00+00:00"
    ensures IsInstant(315_537_897_599_999_999) && !IsInstant(315_537_897_600_000_000) && !IsInstant(-1)
    ensures Iso(315_537_897_599_999_999) == "9999-12-31T23:59:59.999999+00:00"
  {
    hide Iso, DateText, ClockText, Tail, Ordinal;
    FirstOrdinal();
    LastOrdinal();
    IsoOf(0, Date(1, 1, 1));
    IsoOf(315_537_897_599_999_999, Date(9999, 12, 31));
    EndDates();
    EndClocks();
    EndTail();
  }

  // ---- the form with a Z ----

  /** The same instant as other programs print it: `Z` for the offset. */
  function IsoZ(t: Instant): string {
    DateText(DateAt(t)) + "T" + ClockText(SecondOf(t)) + TailZ(MicroOf(t))
  }

  function TailZ(us: int): string
    requires 0 <= us < 1_000_000
  {
    Powers();
    (if us == 0 then "" else "." + Digits(us, 6)) + "Z"
  }

  /** `Z` is above both `+` and `.`. */
  lemma TailZOrder(a: int, b: int)
    requires 0 <= a < 1_000_000 && 0 <= b < 1_000_000
    ensures Below(Tail(a), TailZ(b)) <==> a <= b || b == 0
  {
    Powers();
    if a != 0 && b != 0 {
      DigitsOrder(a, b, 6);
      var x, y := "." + Digits(a, 6), "." + Digits(b, 6);
      BelowConcat(".", Digits(a, 6), ".", Digits(b, 6));
      BelowConcat(x, "+00:00", y, "Z");
      BelowSelf(".");
      SplitEqual(".", Digits(a, 6), ".", Digits(b, 6));
    } else if a == 0 && b != 0 {
      assert Tail(a)[0] == '+' && TailZ(b)[0] == '.';
    } else {
      assert TailZ(b)[0] == 'Z' && (Tail(a)[0] == '+' || Tail(a)[0] == '.');
    }
  }

  /** Against the `Z` form of a whole second every instant of that second is below;
      against that of any other instant, the instant itself is. */
  lemma IsoAgainstZ(c: Instant, k: Instant)
    ensures Below(Iso(c), IsoZ(k)) <==> if MicroOf(k) == 0 then c < k + 1_000_000 else c <= k
  {
    PartsOrder(DateText(DateAt(c)), ClockText(SecondOf(c)), Tail(MicroOf(c)),
               DateText(DateAt(k)), ClockText(SecondOf(k)), TailZ(MicroOf(k)));
    DateTextOrder(DateAt(c), DateAt(k));
    DateAtOrder(c, k);
    ClockTextOrder(SecondOf(c), SecondOf(k));
    TailZOrder(MicroOf(c), MicroOf(k));
    Parts(c);
    Parts(k);
  }

  // ---- parsing ----

  function ParseDate(s: string): (r: Option<Date>)
    requires |s| == 10
    ensures r.Some? ==> ValidDate(r.value)
  {
    var y, m, d := ParseDigits(s[0..4]), ParseDigits(s[5..7]), ParseDigits(s[8..10]);
    if s[4] != '-' || s[7] != '-' || y.None? || m.None? || d.None? then None
    else if !ValidDate(Date(y.value, m.value, d.value)) then None
    else Some(Date(y.value, m.value, d.value))
  }

  function ParseClock(s: string): (r: Option<int>)
    requires |s| == 8
    ensures r.Some? ==> 0 <= r.value < 86_400
  {
    var h, m, c := ParseDigits(s[0..2]), ParseDigits(s[3..5]), ParseDigits(s[6..8]);
    if s[2] != ':' || s[5] != ':' || h.None? || m.None? || c.None? then None
    else if !(0 <= h.value < 24 && 0 <= m.value < 60 && 0 <= c.value < 60) then None
    else Some(3600 * h.value + 60 * m.value + c.value)
  }

  function ParseTail(s: string): (r: Option<int>)
    ensures r.Some? ==> 0 <= r.value < 1_000_000
  {
    if s == "+00:00" then Some(0)
    else if |s| != 13 || s[0] != '.' || s[7..] != "+00:00" then None
    else
      var us := ParseDigits(s[1..7]);
      if us.None? || !(0 <= us.value < 1_000_000) then None else us
  }

  /** `datetime.fromisoformat` on the two shapes `isoformat` prints in UTC. */
  function ParseIso(s: string): (r: Option<Instant>) {
    if |s| < 19 || s[10] != 'T' then None
    else
      var d, c, us := ParseDate(s[..10]), ParseClock(s[11..19]), ParseTail(s[19..]);
      if d.None? || c.None? || us.None? then None
      else
        DateInRange(d.value);
        Some(InstantOf(d.value, c.value, us.value))
  }

  function InstantOf(d: Date, sec: int, us: int): (t: Instant)
    requires ValidDate(d) && 1 <= Ordinal(d) <= MAX_ORDINAL
    requires 0 <= sec < 86_400 && 0 <= us < 1_000_000
  {
    (Ordinal(d) - 1) * 86_400_000_000 + sec * 1_000_000 + us
  }

  lemma FirstOrdinal()
    ensures Ordinal(Date(1, 1, 1)) == 1
  {}

  lemma LastOrdinal()
    ensures Ordinal(Date(9999, 12, 31)) == MAX_ORDINAL
  {
    var last := Date(9999, 12, 31);
    DaysInYear(9999);
    assert DaysBeforeMonth(9999, 13) == DaysBeforeMonth(9999, 12) + DaysInMonth(9999, 12);
    hide DaysBeforeMonth;
    assert DaysBeforeYear(9999) == 3_651_694;
  }

  lemma DateInRange(d: Date)
    requires ValidDate(d)
    ensures 1 <= Ordinal(d) <= MAX_ORDINAL
  {
    var first, last := Date(1, 1, 1), Date(9999, 12, 31);
    LastOrdinal();
    OrdinalOrder(d, last);
    OrdinalOrder(first, d);
  }

  lemma ThreeSlices(x: string, y: string, z: string, sep: string)
    requires |y| == 2 && |z| == 2 && |sep| == 1
    ensures var s := x + sep + y + sep + z; var n := |x|;
      |s| == n + 6 && s[0..n] == x && s[n] == sep[0] && s[n + 1..n + 3] == y && s[n + 3] == sep[0]
      && s[n + 4..n + 6] == z
  {}

  lemma DateRoundTrip(d: Date)
    requires ValidDate(d)
    ensures ParseDate(DateText(d)) == Some(d)
  {
    Powers();
    ThreeSlices(Digits(d.year, 4), Digits(d.month, 2), Digits(d.day, 2), "-");
    DigitsRoundTrip(d.year, 4);
    DigitsRoundTrip(d.month, 2);
    DigitsRoundTrip(d.day, 2);
    hide Digits, ParseDigits, Pow10;
  }

  lemma ClockRoundTrip(c: int)
    requires 0 <= c < 86_400
    ensures ParseClock(ClockText(c)) == Some(c)
  {
    Powers();
    ThreeSlices(Digits(c / 3600, 2), Digits(c / 60 % 60, 2), Digits(c % 60, 2), ":");
    DigitsRoundTrip(c / 3600, 2);
    DigitsRoundTrip(c / 60 % 60, 2);
    DigitsRoundTrip(c % 60, 2);
    ClockFields(c);
    hide Digits, ParseDigits, Pow10;
  }

  lemma TailRoundTrip(us: int)
    requires 0 <= us < 1_000_000
    ensures ParseTail(Tail(us)) == Some(us)
  {
    Powers();
    if us != 0 {
      var f, s := Digits(us, 6), Tail(us);
      assert s == "." + f + "+00:00";
      assert s[1..7] == f && s[7..] == "+00:00";
      DigitsRoundTrip(us, 6);
    }
  }

  lemma Slices(d: string, c: string, t: string)
    requires |d| == 10 && |c| == 8
    ensures var s := d + "T" + c + t;
      s[..10] == d && s[10] == 'T' && s[11..19] == c && s[19..] == t
  {}

  lemma PartsRebuild(t: Instant)
    ensures 1 <= Ordinal(DateAt(t)) <= MAX_ORDINAL
    ensures InstantOf(DateAt(t), SecondOf(t), MicroOf(t)) == t
  {
    DateInRange(DateAt(t));
    Parts(t);
  }

  lemma ParseParts(s: string, d: Date, c: int, us: int)
    requires |s| >= 19 && s[10] == 'T' && ValidDate(d) && 1 <= Ordinal(d) <= MAX_ORDINAL
    requires ParseDate(s[..10]) == Some(d)
    requires 0 <= c < 86_400 && ParseClock(s[11..19]) == Some(c)
    requires 0 <= us < 1_000_000 && ParseTail(s[19..]) == Some(us)
    ensures ParseIso(s) == Some(InstantOf(d, c, us))
  {}

  /** Parsing the printed text gives the instant back. */
  lemma IsoRoundTrip(t: Instant)
    ensures ParseIso(Iso(t)) == Some(t)
  {
    var d, c, us := DateAt(t), SecondOf(t), MicroOf(t);
    Slices(DateText(d), ClockText(c), Tail(us));
    DateRoundTrip(d);
    ClockRoundTrip(c);
    TailRoundTrip(us);
    PartsRebuild(t);
    ParseParts(Iso(t), d, c, us);
  }

  lemma {:induction false} DigitsOfParse(s: string)
    requires ParseDigits(s).Some?
    ensures 0 <= ParseDigits(s).value < Pow10(|s|) && Digits(ParseDigits(s).value, |s|) == s
  {
    if s != "" {
      DigitsOfParse(s[..|s| - 1]);
      assert s == s[..|s| - 1] + [s[|s| - 1]];
    }
  }

  lemma DateOfParse(s: string)
    requires |s| == 10 && ParseDate(s).Some?
    ensures s == DateText(ParseDate(s).value)
  {
    hide Digits, ParseDigits, Pow10, ValidDate;
    Powers();
    DigitsOfParse(s[0..4]);
    DigitsOfParse(s[5..7]);
    DigitsOfParse(s[8..10]);
    assert s == s[0..4] + "-" + s[5..7] + "-" + s[8..10];
  }

  lemma ClockOfParse(s: string)
    requires |s| == 8 && ParseClock(s).Some?
    ensures s == ClockText(ParseClock(s).value)
  {
    hide Digits, ParseDigits, Pow10;
    Powers();
    var h, m, c := ParseDigits(s[0..2]).value, ParseDigits(s[3..5]).value, ParseDigits(s[6..8]).value;
    DigitsOfParse(s[0..2]);
    DigitsOfParse(s[3..5]);
    DigitsOfParse(s[6..8]);
    assert s == s[0..2] + ":" + s[3..5] + ":" + s[6..8];
    ClockSplit(h, m, c);
  }

  lemma ClockSplit(h: int, m: int, c: int)
    requires 0 <= m < 60 && 0 <= c < 60
    ensures var t := 3600 * h + 60 * m + c; t / 3600 == h && t / 60 % 60 == m && t % 60 == c
  {
    var t := 3600 * h + 60 * m + c;
    assert t == 60 * (60 * h + m) + c && t / 60 == 60 * h + m;
    assert t == 3600 * h + (60 * m + c) && 0 <= 60 * m + c < 3600;
  }

  lemma TailOfParse(s: string)
    requires ParseTail(s).Some?
    ensures s == Tail(ParseTail(s).value) || (ParseTail(s).value == 0 && s == ".000000+00:00")
  {
    if s != "+00:00" {
      DigitsOfParse(s[1..7]);
      assert s == "." + s[1..7] + "+00:00";
      if ParseTail(s).value == 0 {
        ZeroDigits();
      }
    }
    hide Digits, ParseDigits;
  }

  lemma ZeroDigits()
    ensures Pow10(6) == 1_000_000 && Digits(0, 6) == "000000"
  {
    Powers();
  }

  lemma PartsOf(d: Date, c: int, us: int)
    requires ValidDate(d) && 1 <= Ordinal(d) <= MAX_ORDINAL && 0 <= c < 86_400 && 0 <= us < 1_000_000
    ensures var t := InstantOf(d, c, us);
      IsInstant(t) && DayOf(t) + 1 == Ordinal(d) && SecondOf(t) == c && MicroOf(t) == us
  {}

  /** Only the printed text of an instant parses to it, or that text with its omitted
      fraction written as zeros. */
  lemma ParsedIsPrinted(s: string)
    requires ParseIso(s).Some?
    ensures var t := ParseIso(s).value;
      s == Iso(t) || (MicroOf(t) == 0 && s == Iso(t)[..19] + ".000000+00:00")
  {
    var d, c, us := ParseDate(s[..10]).value, ParseClock(s[11..19]).value, ParseTail(s[19..]).value;
    DateInRange(d);
    DateOfParse(s[..10]);
    ClockOfParse(s[11..19]);
    TailOfParse(s[19..]);
    PartsOf(d, c, us);
    assert s == s[..10] + "T" + s[11..19] + s[19..];
    hide ParseDate, ParseClock, ParseTail, DateText, ClockText, Tail, Ordinal, FromOrdinal;
    IsoOf(InstantOf(d, c, us), d);
  }
}
