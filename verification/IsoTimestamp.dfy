/** ISO 8601 timestamps: the grammar, the printer and the pointer-advancing parser. Times are milliseconds since 1970. */
module IsoTimestamp {
  import opened Calendar
  import opened Decimal
  import opened Wrappers

  const MS_PER_DAY: int := 86_400_000

  // ---------- The grammar ----------

  datatype Zone =
    | NoZone
    | Utc
    | Offset(plus: bool, hours: int, minutes: int, short: bool)

  /** The fields of a timestamp, and how it is spelled: extended (with separators) or basic. */
  datatype Fields = Fields(extended: bool, date: Date, hour: int, minute: int, second: int, fraction: string, zone: Zone)

  predicate AllDigits(s: string) {
    forall i :: 0 <= i < |s| ==> IsDigit(s[i])
  }

  predicate ZoneOk(z: Zone, extended: bool) {
    z.Offset? ==> 0 <= z.hours <= 23 && 0 <= z.minutes <= 59 && (z.short ==> z.minutes == 0 && !extended)
  }

  predicate WellFormed(f: Fields) {
    && 0 <= f.date.year <= 9999 && IsDate(f.date)
    && 0 <= f.hour <= 23 && 0 <= f.minute <= 59 && 0 <= f.second <= 59
    && AllDigits(f.fraction) && (f.fraction != "" ==> f.extended)
    && ZoneOk(f.zone, f.extended)
  }

  function Pad2(n: int): string
    requires 0 <= n < 100
  {
    [DigitChar(n / 10), DigitChar(n % 10)]
  }

  function Pad4(n: int): string
    requires 0 <= n < 10000
  {
    Pad2(n / 100) + Pad2(n % 100)
  }

  function Separator(extended: bool, c: char): string {
    if extended then [c] else ""
  }

  function DatePart(extended: bool, d: Date): string
    requires 0 <= d.year <= 9999 && 0 <= d.month < 100 && 0 <= d.day < 100
  {
    Pad4(d.year) + Separator(extended, '-') + Pad2(d.month) + Separator(extended, '-') + Pad2(d.day)
  }

  function TimePart(extended: bool, h: int, m: int, s: int): string
    requires 0 <= h < 100 && 0 <= m < 100 && 0 <= s < 100
  {
    Pad2(h) + Separator(extended, ':') + Pad2(m) + Separator(extended, ':') + Pad2(s)
  }

  function FractionPart(digits: string): string {
    if digits == "" then "" else "." + digits
  }

  function ZonePart(z: Zone, extended: bool): string
    requires z.Offset? ==> 0 <= z.hours < 100 && 0 <= z.minutes < 100
  {
    match z
    case NoZone => ""
    case Utc => "Z"
    case Offset(plus, h, m, short) =>
      (if plus then "+" else "-") + Pad2(h) + if short then "" else Separator(extended, ':') + Pad2(m)
  }

  // What follows the seconds.
  function Ending(f: Fields): string
    requires ZoneOk(f.zone, f.extended)
  {
    FractionPart(f.fraction) + ZonePart(f.zone, f.extended)
  }

  function Clock(f: Fields): string
    requires WellFormed(f)
  {
    TimePart(f.extended, f.hour, f.minute, f.second) + Ending(f)
  }

  function Render(f: Fields): string
    requires WellFormed(f)
  {
    DatePart(f.extended, f.date) + ("T" + Clock(f))
  }

  /** The first three digits of a fraction, missing ones being zero. */
  function Millis(digits: string): int
    requires AllDigits(digits)
  {
    (if |digits| > 0 then 100 * DigitValue(digits[0]) else 0)
    + (if |digits| > 1 then 10 * DigitValue(digits[1]) else 0)
    + (if |digits| > 2 then DigitValue(digits[2]) else 0)
  }

  /** How far the zone's clocks are ahead of UTC, in minutes. */
  function Ahead(z: Zone): int {
    match z
    case Offset(plus, h, m, _) => if plus then 60 * h + m else -(60 * h + m)
    case _ => 0
  }

  /** The instant that the fields name. */
  function Instant(f: Fields): int
    requires WellFormed(f)
  {
    ToDays(f.date) * MS_PER_DAY + f.hour * 3_600_000 + f.minute * 60_000 + f.second * 1000 + Millis(f.fraction)
    - Ahead(f.zone) * 60_000
  }

  // ---------- The parser, as functions of what is left of the input ----------

  predicate TwoDigits(s: string, i: nat) {
    i + 2 <= |s| && IsDigit(s[i]) && IsDigit(s[i + 1])
  }

  function Number(s: string, i: nat): (n: int)
    requires TwoDigits(s, i)
    ensures 0 <= n < 100
  {
    10 * DigitValue(s[i]) + DigitValue(s[i + 1])
  }

  datatype Time = Time(extended: bool, hour: int, minute: int, second: int)

  function DateLength(extended: bool): nat { if extended then 10 else 8 }

  function TimeLength(extended: bool): nat { if extended then 8 else 6 }

  function ParseDate(s: string): Option<(bool, Date)> {
    if |s| < 10 || !(TwoDigits(s, 0) && TwoDigits(s, 2)) then None
    else
      var year := 100 * Number(s, 0) + Number(s, 2);
      if s[4] == '-' then
        if TwoDigits(s, 5) && s[7] == '-' && TwoDigits(s, 8) then Some((true, Date(year, Number(s, 5), Number(s, 8)))) else None
      else
        if TwoDigits(s, 4) && TwoDigits(s, 6) then Some((false, Date(year, Number(s, 4), Number(s, 6)))) else None
  }

  function ParseTime(s: string): Option<Time> {
    if |s| < 3 || !TwoDigits(s, 0) then None
    else if s[2] == ':' && |s| >= 8 then
      if TwoDigits(s, 3) && s[5] == ':' && TwoDigits(s, 6) then Some(Time(true, Number(s, 0), Number(s, 3), Number(s, 6))) else None
    else if |s| >= 6 then
      if TwoDigits(s, 2) && TwoDigits(s, 4) then Some(Time(false, Number(s, 0), Number(s, 2), Number(s, 4))) else None
    else None
  }

  // The number of digits that s begins with.
  function DigitRun(s: string): (n: nat)
    ensures n <= |s| && AllDigits(s[..n])
    ensures n < |s| ==> !IsDigit(s[n])
  {
    if s != "" && IsDigit(s[0]) then
      var n := DigitRun(s[1..]) + 1;
      assert forall i :: 0 < i < n ==> s[i] == s[1..][i - 1];
      n
    else 0
  }

  // The digits of a fraction at the beginning of s; none if there is no fraction.
  function Fraction(s: string): (digits: string)
    ensures AllDigits(digits)
  {
    if |s| > 1 && s[0] == '.' && IsDigit(s[1]) then s[1..][..DigitRun(s[1..])] else ""
  }

  function ParseZone(s: string, extended: bool): Option<Zone> {
    if |s| == 0 then Some(NoZone)
    else if s[0] == 'Z' then
      if |s| == 1 then Some(Utc) else None
    else if s[0] == '+' || s[0] == '-' then
      var plus := s[0] == '+';
      if extended then
        if |s| == 6 && TwoDigits(s, 1) && s[3] == ':' && TwoDigits(s, 4) then
          InRange(Offset(plus, Number(s, 1), Number(s, 4), false))
        else None
      else if |s| == 5 then
        if TwoDigits(s, 3) && TwoDigits(s, 1) then InRange(Offset(plus, Number(s, 1), Number(s, 3), false)) else None
      else if |s| == 3 then
        if TwoDigits(s, 1) then InRange(Offset(plus, Number(s, 1), 0, true)) else None
      else None
    else None
  }

  function InRange(z: Zone): Option<Zone>
    requires z.Offset?
  {
    if z.hours > 23 || z.minutes > 59 then None else Some(z)
  }

  function ParseEnding(date: Date, time: Time, u: string): Option<Fields> {
    var fraction := if time.extended then Fraction(u) else "";
    FractionSpelled(u);
    match ParseZone(u[|FractionPart(fraction)|..], time.extended)
    case None => None
    case Some(zone) => Some(Fields(time.extended, date, time.hour, time.minute, time.second, fraction, zone))
  }

  function ParseClock(extended: bool, date: Date, t: string): Option<Fields> {
    match ParseTime(t)
    case None => None
    case Some(time) =>
      if time.extended != extended || time.hour > 23 || time.minute > 59 || time.second > 59 then None
      else ParseEnding(date, time, t[TimeLength(extended)..])
  }

  /** The fields that a timestamp spells, if it is one. */
  function ParseFields(s: string): Option<Fields> {
    if |s| < 15 then None
    else match ParseDate(s)
      case None => None
      case Some((extended, date)) =>
        if !IsDate(date) || s[DateLength(extended)] != 'T' then None
        else ParseClock(extended, date, s[DateLength(extended) + 1..])
  }

  // ---------- The parser recognises the grammar ----------

  lemma PadNumber(s: string, i: nat)
    requires TwoDigits(s, i)
    ensures Pad2(Number(s, i)) == s[i..i + 2]
  {
    var a, b := DigitValue(s[i]), DigitValue(s[i + 1]);
    assert (10 * a + b) / 10 == a && (10 * a + b) % 10 == b;
  }

  lemma NumberPad(n: int, s: string, i: nat)
    requires 0 <= n < 100 && i + 2 <= |s| && s[i..i + 2] == Pad2(n)
    ensures TwoDigits(s, i) && Number(s, i) == n
  {
    assert s[i] == s[i..i + 2][0] && s[i + 1] == s[i..i + 2][1];
  }

  lemma DateSpelled(s: string)
    requires ParseDate(s).Some? && IsDate(ParseDate(s).value.1)
    ensures var (extended, date) := ParseDate(s).value;
            0 <= date.year <= 9999 && s[..DateLength(extended)] == DatePart(extended, date)
  {
    var (extended, date) := ParseDate(s).value;
    var century, year := Number(s, 0), Number(s, 2);
    assert (100 * century + year) / 100 == century && (100 * century + year) % 100 == year;
    PadNumber(s, 0);
    PadNumber(s, 2);
    if extended {
      PadNumber(s, 5);
      PadNumber(s, 8);
      assert s[..10] == s[0..2] + s[2..4] + [s[4]] + s[5..7] + [s[7]] + s[8..10];
    } else {
      PadNumber(s, 4);
      PadNumber(s, 6);
      assert s[..8] == s[0..2] + s[2..4] + "" + s[4..6] + "" + s[6..8];
    }
  }

  lemma TimeSpelled(s: string)
    requires ParseTime(s).Some?
    requires var t := ParseTime(s).value; t.hour <= 23 && t.minute <= 59 && t.second <= 59
    ensures var t := ParseTime(s).value;
            0 <= t.hour && 0 <= t.minute && 0 <= t.second
            && TimeLength(t.extended) <= |s| && s[..TimeLength(t.extended)] == TimePart(t.extended, t.hour, t.minute, t.second)
  {
    PadNumber(s, 0);
    if ParseTime(s).value.extended {
      PadNumber(s, 3);
      PadNumber(s, 6);
      assert s[..8] == s[0..2] + [s[2]] + s[3..5] + [s[5]] + s[6..8];
    } else {
      PadNumber(s, 2);
      PadNumber(s, 4);
      assert s[..6] == s[0..2] + "" + s[2..4] + "" + s[4..6];
    }
  }

  lemma FractionSpelled(s: string)
    ensures var part := FractionPart(Fraction(s)); |part| <= |s| && s[..|part|] == part
  {
    var digits := Fraction(s);
    if digits != "" {
      assert s[..1 + |digits|] == [s[0]] + s[1..][..|digits|];
    }
  }

  lemma ZoneSpelled(s: string, extended: bool)
    requires ParseZone(s, extended).Some?
    ensures ZoneOk(ParseZone(s, extended).value, extended)
    ensures s == ZonePart(ParseZone(s, extended).value, extended)
  {
    if |s| >= 3 {
      PadNumber(s, 1);
      if extended {
        PadNumber(s, 4);
        assert s == [s[0]] + s[1..3] + ([s[3]] + s[4..6]);
      } else if |s| == 5 {
        PadNumber(s, 3);
        assert s == [s[0]] + s[1..3] + ("" + s[3..5]);
      } else {
        assert s == [s[0]] + s[1..3] + "";
      }
    }
  }

  lemma EndingSound(date: Date, time: Time, u: string)
    requires ParseEnding(date, time, u).Some?
    ensures var f := ParseEnding(date, time, u).value;
            && (f.extended, f.date, f.hour, f.minute, f.second) == (time.extended, date, time.hour, time.minute, time.second)
            && AllDigits(f.fraction) && (f.fraction != "" ==> f.extended) && ZoneOk(f.zone, f.extended)
            && Ending(f) == u
  {
    hide ParseZone, Fraction, ZoneOk, ZonePart;
    var f := ParseEnding(date, time, u).value;
    var part := FractionPart(f.fraction);
    FractionSpelled(u);
    ZoneSpelled(u[|part|..], time.extended);
    assert u == u[..|part|] + u[|part|..];
  }

  lemma ClockSound(extended: bool, date: Date, t: string)
    requires 0 <= date.year <= 9999 && IsDate(date)
    requires ParseClock(extended, date, t).Some?
    ensures var f := ParseClock(extended, date, t).value;
            WellFormed(f) && f.extended == extended && f.date == date && Clock(f) == t
  {
    hide ParseTime, ParseEnding, Ending, TimePart;
    var time := ParseTime(t).value;
    TimeSpelled(t);
    EndingSound(date, time, t[TimeLength(extended)..]);
    assert t == t[..TimeLength(extended)] + t[TimeLength(extended)..];
  }

  /** Whatever the parser accepts is the spelling of well-formed fields. */
  lemma Sound(s: string)
    requires ParseFields(s).Some?
    ensures WellFormed(ParseFields(s).value) && Render(ParseFields(s).value) == s
  {
    hide ParseDate, ParseClock, Clock, DatePart;
    var (extended, date) := ParseDate(s).value;
    var n := DateLength(extended);
    DateSpelled(s);
    ClockSound(extended, date, s[n + 1..]);
    assert s == s[..n] + ("T" + s[n + 1..]);
  }

  lemma DateParsed(extended: bool, d: Date, rest: string)
    requires 0 <= d.year <= 9999 && 0 <= d.month < 100 && 0 <= d.day < 100 && |rest| >= 2
    ensures |DatePart(extended, d)| == DateLength(extended)
    ensures ParseDate(DatePart(extended, d) + rest) == Some((extended, d))
  {
    var s := DatePart(extended, d) + rest;
    NumberPad(d.year / 100, s, 0);
    NumberPad(d.year % 100, s, 2);
    if extended {
      NumberPad(d.month, s, 5);
      NumberPad(d.day, s, 8);
    } else {
      NumberPad(d.month, s, 4);
      NumberPad(d.day, s, 6);
    }
  }

  lemma MonthLengths(y: int, m: int)
    ensures MonthLength(y, m) <= 31
  {
  }

  lemma TimeParsed(extended: bool, h: int, m: int, sec: int, rest: string)
    requires 0 <= h < 100 && 0 <= m < 100 && 0 <= sec < 100
    ensures |TimePart(extended, h, m, sec)| == TimeLength(extended)
    ensures ParseTime(TimePart(extended, h, m, sec) + rest) == Some(Time(extended, h, m, sec))
  {
    var s := TimePart(extended, h, m, sec) + rest;
    NumberPad(h, s, 0);
    if extended {
      NumberPad(m, s, 3);
      NumberPad(sec, s, 6);
    } else {
      NumberPad(m, s, 2);
      NumberPad(sec, s, 4);
    }
  }

  lemma {:induction false} RunOfDigits(digits: string, rest: string)
    requires AllDigits(digits)
    requires rest != "" ==> !IsDigit(rest[0])
    ensures DigitRun(digits + rest) == |digits|
  {
    if digits == "" {
      assert digits + rest == rest;
    } else {
      RunOfDigits(digits[1..], rest);
      assert (digits + rest)[1..] == digits[1..] + rest;
    }
  }

  lemma FractionParsed(digits: string, rest: string)
    requires AllDigits(digits)
    requires rest != "" ==> !IsDigit(rest[0]) && rest[0] != '.'
    ensures Fraction(FractionPart(digits) + rest) == digits
  {
    var s := FractionPart(digits) + rest;
    if digits == "" {
      assert s == rest;
    } else {
      assert s == "." + (digits + rest);
      assert s[1..] == digits + rest;
      RunOfDigits(digits, rest);
    }
  }

  lemma ZoneParsed(z: Zone, extended: bool)
    requires ZoneOk(z, extended)
    ensures ParseZone(ZonePart(z, extended), extended) == Some(z)
    ensures ZonePart(z, extended) != "" ==> !IsDigit(ZonePart(z, extended)[0]) && ZonePart(z, extended)[0] != '.'
  {
    if z.Offset? {
      var s := ZonePart(z, extended);
      NumberPad(z.hours, s, 1);
      if !z.short {
        NumberPad(z.minutes, s, if extended then 4 else 3);
      }
    }
  }

  lemma EndingComplete(f: Fields)
    requires WellFormed(f)
    ensures ParseEnding(f.date, Time(f.extended, f.hour, f.minute, f.second), Ending(f)) == Some(f)
  {
    var zone := ZonePart(f.zone, f.extended);
    ZoneParsed(f.zone, f.extended);
    FractionParsed(f.fraction, zone);
    assert Ending(f)[|FractionPart(f.fraction)|..] == zone;
  }

  lemma ClockComplete(f: Fields)
    requires WellFormed(f)
    ensures ParseClock(f.extended, f.date, Clock(f)) == Some(f)
    ensures |Clock(f)| >= 6
  {
    TimeParsed(f.extended, f.hour, f.minute, f.second, Ending(f));
    EndingComplete(f);
    assert Clock(f)[TimeLength(f.extended)..] == Ending(f);
  }

  /** The spelling of well-formed fields is accepted, and gives these fields back. */
  lemma Complete(f: Fields)
    requires WellFormed(f)
    ensures ParseFields(Render(f)) == Some(f)
  {
    hide ParseDate, ParseClock, Clock, DatePart;
    ClockComplete(f);
    DateParsed(f.extended, f.date, "T" + Clock(f));
    assert Render(f)[DateLength(f.extended) + 1..] == Clock(f);
  }

  lemma ParseRender(f: Fields)
    requires WellFormed(f)
    ensures Parse(Render(f)) == Some(Instant(f))
  {
    Complete(f);
  }

  /** The parser accepts exactly the spellings of well-formed fields, and computes the instant they name. */
  lemma ParserExact(s: string)
    ensures ParseFields(s).Some? <==> exists f :: WellFormed(f) && Render(f) == s
    ensures forall f :: WellFormed(f) && Render(f) == s ==> Parse(s) == Some(Instant(f))
  {
    if ParseFields(s).Some? { Sound(s); }
    forall f | WellFormed(f) && Render(f) == s ensures ParseFields(s) == Some(f) {
      Complete(f);
    }
  }

  function Parse(s: string): Option<int> {
    match ParseFields(s)
    case None => None
    case Some(f) => Sound(s); Some(Instant(f))
  }

  /** Basic and extended spellings of the same fields name the same instant. */
  lemma SpellingsAgree(f: Fields, g: Fields)
    requires WellFormed(f) && WellFormed(g)
    requires g == f.(extended := !f.extended)
    ensures Parse(Render(f)) == Parse(Render(g)) && Parse(Render(f)).Some?
  {
    ParseRender(f);
    ParseRender(g);
    SpellingIrrelevant(f);
  }

  lemma SpellingIrrelevant(f: Fields)
    requires WellFormed(f) && WellFormed(f.(extended := !f.extended))
    ensures Instant(f.(extended := !f.extended)) == Instant(f)
  {
  }

  /** A zone shifts the instant by exactly its offset. */
  lemma ZoneShifts(f: Fields, z: Zone)
    requires WellFormed(f) && WellFormed(f.(zone := z)) && f.zone == Utc
    ensures Parse(Render(f)).Some? && Parse(Render(f.(zone := z))).Some?
    ensures Parse(Render(f.(zone := z))).value == Parse(Render(f)).value - Ahead(z) * 60_000
  {
    ParseRender(f);
    ParseRender(f.(zone := z));
  }

  // ---------- What is accepted, on written-out text ----------

  /** A number of digits, separators as the format has them, and any ending: nothing says that the numbers make sense. */
  function Written(dashes: bool, d: Date, colons: bool, h: int, m: int, sec: int, ending: string): string
    requires 0 <= d.year <= 9999 && 0 <= d.month < 100 && 0 <= d.day < 100
    requires 0 <= h < 100 && 0 <= m < 100 && 0 <= sec < 100
  {
    Pad4(d.year) + (if dashes then "-" else "") + Pad2(d.month) + (if dashes then "-" else "") + Pad2(d.day) + "T"
    + Pad2(h) + (if colons then ":" else "") + Pad2(m) + (if colons then ":" else "") + Pad2(sec) + ending
  }

  /** The dates and times of day that exist, in numbers. */
  predicate Exists(d: Date, h: int, m: int, sec: int) {
    && 1 <= d.month <= 12 && 1 <= d.day
    && d.day <= (if d.month == 2 then (if (d.year % 4 == 0 && d.year % 100 != 0) || d.year % 400 == 0 then 29 else 28)
                 else 30 + (d.month + d.month / 8) % 2)
    && h < 24 && m < 60 && sec < 60
  }

  /** Milliseconds since 1970 of a date and a time of day, in closed form. */
  function SinceEpoch(d: Date, h: int, m: int, sec: int): int {
    var y := if d.month <= 2 then d.year - 1 else d.year;
    (365 * y + y / 4 - y / 100 + y / 400 + (153 * ((d.month + 9) % 12) + 2) / 5 + d.day - 719469) * 86_400_000
    + ((h * 60 + m) * 60 + sec) * 1000
  }

  lemma WrittenParts(dashes: bool, d: Date, colons: bool, h: int, m: int, sec: int, ending: string)
    requires 0 <= d.year <= 9999 && 0 <= d.month < 100 && 0 <= d.day < 100
    requires 0 <= h < 100 && 0 <= m < 100 && 0 <= sec < 100
    ensures Written(dashes, d, colons, h, m, sec, ending) == DatePart(dashes, d) + ("T" + (TimePart(colons, h, m, sec) + ending))
  {
    hide Pad2, Pad4;
  }

  /** What the parser makes of written-out text with an ending that spells some fraction and zone, or nothing. */
  lemma WrittenParsed(dashes: bool, d: Date, colons: bool, h: int, m: int, sec: int, ending: string)
    requires 0 <= d.year <= 9999 && 0 <= d.month < 100 && 0 <= d.day < 100
    requires 0 <= h < 100 && 0 <= m < 100 && 0 <= sec < 100
    ensures ParseFields(Written(dashes, d, colons, h, m, sec, ending))
            == if Exists(d, h, m, sec) && dashes == colons then ParseEnding(d, Time(colons, h, m, sec), ending) else None
  {
    hide ParseDate, ParseTime, ParseEnding, DatePart, TimePart, IsDate;
    var clock := TimePart(colons, h, m, sec) + ending;
    WrittenParts(dashes, d, colons, h, m, sec, ending);
    TimeParsed(colons, h, m, sec, ending);
    DateParsed(dashes, d, "T" + clock);
    var s := DatePart(dashes, d) + ("T" + clock);
    assert s[DateLength(dashes) + 1..] == clock;
    assert clock[TimeLength(colons)..] == ending;
    DaysOfMonths(d);
  }

  lemma OffsetParsed(plus: bool, zh: int, zm: int, short: bool, colons: bool)
    requires 0 <= zh < 100 && 0 <= zm < 100
    ensures var z := (if plus then "+" else "-") + Pad2(zh) + if short then "" else (if colons then ":" else "") + Pad2(zm);
            ParseZone(z, colons) == if zh < 24 && (if short then !colons else zm < 60)
                                    then Some(Offset(plus, zh, if short then 0 else zm, short)) else None
  {
    var z := (if plus then "+" else "-") + Pad2(zh) + if short then "" else (if colons then ":" else "") + Pad2(zm);
    NumberPad(zh, z, 1);
    if !short { NumberPad(zm, z, if colons then 4 else 3); }
  }

  lemma EndingParsed(d: Date, t: Time, digits: string, zone: string)
    requires AllDigits(digits) && (digits != "" ==> t.extended)
    requires zone != "" ==> !IsDigit(zone[0]) && zone[0] != '.'
    ensures ParseEnding(d, t, FractionPart(digits) + zone)
            == match ParseZone(zone, t.extended)
               case None => None
               case Some(z) => Some(Fields(t.extended, d, t.hour, t.minute, t.second, digits, z))
  {
    hide ParseZone, Fraction;
    FractionParsed(digits, zone);
    assert (FractionPart(digits) + zone)[|FractionPart(digits)|..] == zone;
  }

  /** A fraction in the basic format is not accepted. */
  lemma NoBasicFraction(d: Date, h: int, m: int, sec: int, digits: string, zone: string)
    ensures ParseEnding(d, Time(false, h, m, sec), "." + digits + zone) == None
  {
    var u := "." + digits + zone;
    assert FractionPart("") == "" && u[0..] == u && u[0] == '.';
  }

  /** The instant of accepted text, in closed form. */
  lemma ParsedInstant(s: string, f: Fields)
    requires ParseFields(s) == Some(f)
    ensures Parse(s) == Some(SinceEpoch(f.date, f.hour, f.minute, f.second) + Parts(f))
  {
    hide ParseFields, Render, WellFormed, Instant, SinceEpoch, Parts;
    Sound(s);
    InstantIs(f);
  }

  lemma InstantIs(f: Fields)
    requires WellFormed(f)
    ensures Instant(f) == SinceEpoch(f.date, f.hour, f.minute, f.second) + Parts(f)
  {
    hide WellFormed, ToDays, Millis, Ahead;
    KnownFields(f);
    CivilDays(f.date);
  }

  lemma KnownFields(f: Fields)
    requires WellFormed(f)
    ensures 1 <= f.date.month <= 12 && AllDigits(f.fraction)
  {
  }

  // What the fraction and the zone add.
  function Parts(f: Fields): int {
    (if AllDigits(f.fraction) then Millis(f.fraction) else 0) - Ahead(f.zone) * 60_000
  }

  lemma NotParsed(s: string)
    requires ParseFields(s) == None
    ensures Parse(s) == None
  {
    hide ParseFields;
  }

  lemma PlainZone(z: bool, extended: bool)
    ensures ParseZone(if z then "Z" else "", extended) == Some(if z then Utc else NoZone)
  {
  }

  /** Written-out text in UTC or without a zone: accepted exactly if date and time exist, in one format throughout. */
  lemma PlainExactly(dashes: bool, d: Date, colons: bool, h: int, m: int, sec: int, z: bool)
    requires 0 <= d.year <= 9999 && 0 <= d.month < 100 && 0 <= d.day < 100
    requires 0 <= h < 100 && 0 <= m < 100 && 0 <= sec < 100
    ensures Parse(Written(dashes, d, colons, h, m, sec, if z then "Z" else ""))
            == if Exists(d, h, m, sec) && dashes == colons then Some(SinceEpoch(d, h, m, sec)) else None
  {
    hide Written, ParseFields, ParseEnding, ParseZone, Parse, SinceEpoch, Exists;
    var zone := if z then "Z" else "";
    var s := Written(dashes, d, colons, h, m, sec, zone);
    var f := Fields(colons, d, h, m, sec, "", if z then Utc else NoZone);
    WrittenParsed(dashes, d, colons, h, m, sec, zone);
    PlainZone(z, colons);
    assert FractionPart("") + zone == zone;
    EndingParsed(d, Time(colons, h, m, sec), "", zone);
    if Exists(d, h, m, sec) && dashes == colons { ParsedInstant(s, f); } else { NotParsed(s); }
  }

  /** With an offset: accepted exactly if that is in range as well, and shifted by it. */
  lemma OffsetExactly(dashes: bool, d: Date, colons: bool, h: int, m: int, sec: int, plus: bool, zh: int, zm: int, short: bool)
    requires 0 <= d.year <= 9999 && 0 <= d.month < 100 && 0 <= d.day < 100
    requires 0 <= h < 100 && 0 <= m < 100 && 0 <= sec < 100 && 0 <= zh < 100 && 0 <= zm < 100
    ensures var zone := (if plus then "+" else "-") + Pad2(zh) + if short then "" else (if colons then ":" else "") + Pad2(zm);
            Parse(Written(dashes, d, colons, h, m, sec, zone))
            == if Exists(d, h, m, sec) && dashes == colons && zh < 24 && (if short then !colons else zm < 60) then
                 Some(SinceEpoch(d, h, m, sec) + (if plus then -1 else 1) * (60 * zh + (if short then 0 else zm)) * 60_000)
               else None
  {
    hide Written, ParseFields, ParseEnding, ParseZone, Parse, SinceEpoch, Exists;
    var zone := (if plus then "+" else "-") + Pad2(zh) + if short then "" else (if colons then ":" else "") + Pad2(zm);
    var s := Written(dashes, d, colons, h, m, sec, zone);
    var f := Fields(colons, d, h, m, sec, "", Offset(plus, zh, if short then 0 else zm, short));
    WrittenParsed(dashes, d, colons, h, m, sec, zone);
    assert FractionPart("") + zone == zone;
    EndingParsed(d, Time(colons, h, m, sec), "", zone);
    OffsetParsed(plus, zh, zm, short, colons);
    if Exists(d, h, m, sec) && dashes == colons && zh < 24 && (if short then !colons else zm < 60) {
      ParsedInstant(s, f);
    } else {
      NotParsed(s);
    }
  }

  /** With a fraction: accepted exactly in the extended format, and its first three digits are added as milliseconds. */
  lemma FractionExactly(dashes: bool, d: Date, colons: bool, h: int, m: int, sec: int, digits: string, z: bool)
    requires 0 <= d.year <= 9999 && 0 <= d.month < 100 && 0 <= d.day < 100
    requires 0 <= h < 100 && 0 <= m < 100 && 0 <= sec < 100
    requires digits != "" && AllDigits(digits)
    ensures Parse(Written(dashes, d, colons, h, m, sec, "." + digits + if z then "Z" else ""))
            == if Exists(d, h, m, sec) && dashes && colons then
                 Some(SinceEpoch(d, h, m, sec) + 100 * (digits[0] as int - '0' as int)
                      + (if |digits| > 1 then 10 * (digits[1] as int - '0' as int) else 0)
                      + (if |digits| > 2 then digits[2] as int - '0' as int else 0))
               else None
  {
    hide Written, ParseFields, ParseEnding, ParseZone, Parse, SinceEpoch, Exists;
    var zone := if z then "Z" else "";
    var s := Written(dashes, d, colons, h, m, sec, "." + digits + zone);
    var f := Fields(colons, d, h, m, sec, digits, if z then Utc else NoZone);
    WrittenParsed(dashes, d, colons, h, m, sec, "." + digits + zone);
    PlainZone(z, colons);
    if colons {
      EndingParsed(d, Time(colons, h, m, sec), digits, zone);
    } else {
      NoBasicFraction(d, h, m, sec, digits, zone);
    }
    if Exists(d, h, m, sec) && dashes && colons { ParsedInstant(s, f); } else { NotParsed(s); }
  }

  // ---------- The imperative parser ----------

  // A character less '0', as an unsigned byte: above 9 for anything but a digit.
  function Digit(c: char): (d: int)
    ensures d <= 9 <==> IsDigit(c)
    ensures d <= 9 ==> d == DigitValue(c)
  {
    if IsDigit(c) then DigitValue(c) else 10
  }

  // The instant, stage by stage: from the zone on, from the clock on.
  function EndingInstant(date: Date, time: Time, fraction: string, z: string): Option<int>
    requires AllDigits(fraction)
  {
    match ParseZone(z, time.extended)
    case None => None
    case Some(zone) =>
      Some(ToDays(date) * MS_PER_DAY + time.hour * 3_600_000 + time.minute * 60_000 + time.second * 1000 + Millis(fraction)
           - Ahead(zone) * 60_000)
  }

  function ClockInstant(extended: bool, date: Date, t: string): Option<int> {
    match ParseTime(t)
    case None => None
    case Some(time) =>
      if time.extended != extended || time.hour > 23 || time.minute > 59 || time.second > 59 then None
      else
        var u := t[TimeLength(extended)..];
        var fraction := if extended then Fraction(u) else "";
        FractionSpelled(u);
        EndingInstant(date, time, fraction, u[|FractionPart(fraction)|..])
  }

  lemma InstantByStages(sv: string)
    requires |sv| >= 15
    ensures Parse(sv) == match ParseDate(sv)
                         case None => None
                         case Some((extended, date)) =>
                           if !IsDate(date) || sv[DateLength(extended)] != 'T' then None
                           else ClockInstant(extended, date, sv[DateLength(extended) + 1..])
  {
    hide ParseDate, ParseTime, ParseZone, Fraction, Render, Clock, IsDate;
    if ParseFields(sv).Some? { Sound(sv); }
  }

  method ParseISOTimestamp(sv: string) returns (r: Option<int>)
    ensures r == Parse(sv)
  {
    if |sv| < 15 { return None; }
    InstantByStages(sv);
    var dgt := new int[9](_ => 0);
    var ok, extendedDate, str := ReadDate(sv, dgt);
    if !ok { return None; }
    var ymd := Date(dgt[3] + 10 * dgt[2] + 100 * dgt[1] + 1000 * dgt[0], dgt[5] + 10 * dgt[4], dgt[7] + 10 * dgt[6]);
    if !IsDate(ymd) || sv[str] != 'T' { return None; }
    r := ReadClock(sv, str + 1, extendedDate, ymd, dgt);
  }

  /** From the hours on. */
  method ReadClock(sv: string, start: nat, extendedDate: bool, ymd: Date, dgt: array<int>) returns (r: Option<int>)
    requires start + 4 <= |sv| && dgt.Length == 9 && dgt[8] == 0
    modifies dgt
    ensures r == ClockInstant(extendedDate, ymd, sv[start..])
  {
    hide ParseTime, ParseZone, Fraction, ToDays;
    var ok, extendedTime, str := ReadTime(sv, start, dgt);
    if !ok { return None; }
    dgt[6], dgt[7] := 0, 0;
    ghost var u := sv[str..];
    assert sv[start..][TimeLength(extendedTime)..] == u;
    ghost var fraction := if extendedTime then Fraction(u) else "";
    FractionSpelled(u);
    if extendedTime { str := SkipFraction(sv, str, dgt); }
    if extendedDate != extendedTime { return None; }
    var h, m, s := 10 * dgt[0] + dgt[1], 10 * dgt[2] + dgt[3], 10 * dgt[4] + dgt[5];
    if h > 23 || m > 59 || s > 59 { return None; }
    var result := ToDays(ymd) * MS_PER_DAY + h * 3_600_000 + m * 60_000 + s * 1000 + (100 * dgt[6] + 10 * dgt[7] + dgt[8]);
    assert sv[str..] == u[|FractionPart(fraction)|..];
    r := AddZone(sv, str, extendedTime, result, dgt);
  }

  /** From the zone on. */
  method AddZone(sv: string, str: nat, extended: bool, result: int, dgt: array<int>) returns (r: Option<int>)
    requires str <= |sv| && dgt.Length == 9
    modifies dgt
    ensures r == match ParseZone(sv[str..], extended) case None => None case Some(zone) => Some(result - Ahead(zone) * 60_000)
  {
    var ok, plus := ReadZone(sv, str, extended, dgt);
    if !ok { return None; }
    var h, m := 10 * dgt[0] + dgt[1], 10 * dgt[2] + dgt[3];
    if h > 23 || m > 59 { return None; }
    var tz := h * 3_600_000 + m * 60_000;
    return Some(if plus then result - tz else result + tz);
  }

  method ReadDate(sv: string, dgt: array<int>) returns (ok: bool, extended: bool, str: nat)
    requires |sv| >= 15 && dgt.Length == 9 && dgt[8] == 0
    modifies dgt
    ensures dgt[8] == 0
    ensures ok <==> ParseDate(sv).Some?
    ensures ok ==> str == DateLength(extended) && ParseDate(sv) == Some((extended,
              Date(dgt[3] + 10 * dgt[2] + 100 * dgt[1] + 1000 * dgt[0], dgt[5] + 10 * dgt[4], dgt[7] + 10 * dgt[6])))
  {
    ok, extended, str := false, false, 0;
    dgt[0], dgt[1], dgt[2], dgt[3] := Digit(sv[0]), Digit(sv[1]), Digit(sv[2]), Digit(sv[3]);
    if dgt[0] > 9 || dgt[1] > 9 || dgt[2] > 9 || dgt[3] > 9 { return; }
    if sv[4] == '-' {
      extended := true;
      dgt[4], dgt[5], dgt[6], dgt[7] := Digit(sv[5]), Digit(sv[6]), Digit(sv[8]), Digit(sv[9]);
      if dgt[4] > 9 || dgt[5] > 9 || sv[7] != '-' || dgt[6] > 9 || dgt[7] > 9 { return; }
      str := str + 10;
    } else {
      dgt[4], dgt[5], dgt[6], dgt[7] := Digit(sv[4]), Digit(sv[5]), Digit(sv[6]), Digit(sv[7]);
      if dgt[4] > 9 || dgt[5] > 9 || dgt[6] > 9 || dgt[7] > 9 { return; }
      str := str + 8;
    }
    ok := true;
  }

  method ReadTime(sv: string, start: nat, dgt: array<int>) returns (ok: bool, extended: bool, str: nat)
    requires start + 4 <= |sv| && dgt.Length == 9 && dgt[8] == 0
    modifies dgt
    ensures dgt[8] == 0
    ensures ok <==> ParseTime(sv[start..]).Some?
    ensures ok ==> str == start + TimeLength(extended) <= |sv| && ParseTime(sv[start..]) == Some(Time(extended,
              10 * dgt[0] + dgt[1], 10 * dgt[2] + dgt[3], 10 * dgt[4] + dgt[5]))
  {
    ok, extended, str := false, false, start;
    dgt[0], dgt[1] := Digit(sv[str]), Digit(sv[str + 1]);
    if dgt[0] > 9 || dgt[1] > 9 { return; }
    var len := |sv| - str;
    if sv[str + 2] == ':' && len >= 8 {
      extended := true;
      dgt[2], dgt[3], dgt[4], dgt[5] := Digit(sv[str + 3]), Digit(sv[str + 4]), Digit(sv[str + 6]), Digit(sv[str + 7]);
      if dgt[2] > 9 || dgt[3] > 9 || sv[str + 5] != ':' || dgt[4] > 9 || dgt[5] > 9 { return; }
      str := str + 8;
    } else if len >= 6 {
      dgt[2], dgt[3], dgt[4], dgt[5] := Digit(sv[str + 2]), Digit(sv[str + 3]), Digit(sv[str + 4]), Digit(sv[str + 5]);
      if dgt[2] > 9 || dgt[3] > 9 || dgt[4] > 9 || dgt[5] > 9 { return; }
      str := str + 6;
    } else {
      return;
    }
    ok := true;
  }

  // Leaves hours and minutes of the offset in dgt, zeros if there is none; their range is checked by the caller.
  method ReadZone(sv: string, str: nat, extended: bool, dgt: array<int>) returns (ok: bool, plus: bool)
    requires str <= |sv| && dgt.Length == 9
    modifies dgt
    ensures ParseZone(sv[str..], extended).Some? <==>
            ok && 10 * dgt[0] + dgt[1] <= 23 && 10 * dgt[2] + dgt[3] <= 59
    ensures ParseZone(sv[str..], extended).Some? ==>
            60 * (10 * dgt[0] + dgt[1]) + (10 * dgt[2] + dgt[3])
            == if plus then Ahead(ParseZone(sv[str..], extended).value) else -Ahead(ParseZone(sv[str..], extended).value)
  {
    ok, plus := false, false;
    dgt[0], dgt[1], dgt[2], dgt[3] := 0, 0, 0, 0;
    var len := |sv| - str;
    if len > 0 {
      if sv[str] == 'Z' {
        if len != 1 { return; }
      } else if sv[str] == '+' || sv[str] == '-' {
        plus := sv[str] == '+';
        if extended {
          if len != 6 { return; }
          dgt[0], dgt[1], dgt[2], dgt[3] := Digit(sv[str + 1]), Digit(sv[str + 2]), Digit(sv[str + 4]), Digit(sv[str + 5]);
          if dgt[0] > 9 || dgt[1] > 9 || sv[str + 3] != ':' || dgt[2] > 9 || dgt[3] > 9 { return; }
        } else {
          if len == 5 {
            dgt[2], dgt[3] := Digit(sv[str + 3]), Digit(sv[str + 4]);
            if dgt[2] > 9 || dgt[3] > 9 { return; }
            len := 3;
          }
          if len != 3 { return; }
          dgt[0], dgt[1] := Digit(sv[str + 1]), Digit(sv[str + 2]);
          if dgt[0] > 9 || dgt[1] > 9 { return; }
        }
      } else {
        return;
      }
    }
    ok := true;
  }

  /** The nested part after an extended time: up to three decimals are kept, the others skipped. */
  method SkipFraction(sv: string, start: nat, dgt: array<int>) returns (str: nat)
    requires start <= |sv| && dgt.Length == 9
    requires dgt[6] == dgt[7] == dgt[8] == 0
    modifies dgt
    ensures str == start + |FractionPart(Fraction(sv[start..]))| <= |sv|
    ensures 100 * dgt[6] + 10 * dgt[7] + dgt[8] == Millis(Fraction(sv[start..]))
    ensures forall i :: 0 <= i < 6 ==> dgt[i] == old(dgt[i])
  {
    hide DigitRun;
    str := start;
    FractionSpelled(sv[start..]);
    if |sv| - str > 1 {
      if sv[str] == '.' && Digit(sv[str + 1]) < 10 {
        ghost var run := sv[str..][1..];
        dgt[6] := Digit(sv[str + 1]);
        str := str + 2;
        if |sv| - str > 0 {
          if Digit(sv[str]) < 10 {
            dgt[7] := Digit(sv[str]);
            str := str + 1;
            if |sv| - str > 0 {
              if Digit(sv[str]) < 10 {
                dgt[8] := Digit(sv[str]);
                str := str + 1;
                while str < |sv| && Digit(sv[str]) <= 9
                  invariant start + 4 <= str <= |sv|
                  invariant AllDigits(run[..str - start - 1])
                {
                  ghost var k := str - start - 1;
                  assert run[k] == sv[str] && run[..k + 1] == run[..k] + [run[k]];
                  str := str + 1;
                }
              }
            }
          }
        }
        RunIs(run, str - start - 1);
      }
    }
  }

  lemma {:induction false} RunIs(s: string, n: nat)
    requires n <= |s| && AllDigits(s[..n])
    requires n < |s| ==> !IsDigit(s[n])
    ensures DigitRun(s) == n
  {
    assert s == s[..n] + s[n..];
    RunOfDigits(s[..n], s[n..]);
  }

  // ---------- The printer ----------

  // {:04} of a year: zeros between the sign and the digits, up to four characters.
  function PrintYear(y: int): string {
    if y < 0 then "-" + PadLeft(Print(-y), 3) else PadLeft(Print(y), 4)
  }

  function PadLeft(s: string, width: nat): string
    decreases width - |s|
  {
    if |s| >= width then s else PadLeft("0" + s, width)
  }

  function Pad6(n: int): string
    requires 0 <= n < 1_000_000
  {
    Pad2(n / 10000) + Pad2(n / 100 % 100) + Pad2(n % 100)
  }

  /** FormatISOTimestamp of a time point in milliseconds, whose fraction is printed in microseconds. */
  function Format(t: int): string {
    var date := FromDays(t / MS_PER_DAY);
    ToFrom(t / MS_PER_DAY);
    MonthLengths(date.year, date.month);
    var ms := t % MS_PER_DAY;
    PrintYear(date.year) + "-" + Pad2(date.month) + "-" + Pad2(date.day) + "T"
    + Pad2(ms / 3_600_000) + ":" + Pad2(ms / 60_000 % 60) + ":" + Pad2(ms / 1000 % 60) + "." + Pad6(ms % 1000 * 1000) + "Z"
  }

  function FieldsOf(t: int): Fields {
    var ms := t % MS_PER_DAY;
    Fields(true, FromDays(t / MS_PER_DAY), ms / 3_600_000, ms / 60_000 % 60, ms / 1000 % 60, Pad6(ms % 1000 * 1000), Utc)
  }

  // The last w digits of a number.
  function Digits(n: nat, w: nat): string {
    if w == 0 then "" else Digits(n / 10, w - 1) + [DigitChar(n % 10)]
  }

  lemma {:induction false} PadSplits(s: string, c: char, width: nat)
    requires |s| <= width
    ensures PadLeft(s + [c], width + 1) == PadLeft(s, width) + [c]
    decreases width - |s|
  {
    if |s| < width {
      PadSplits("0" + s, c, width);
      assert "0" + s + [c] == "0" + (s + [c]);
    }
  }

  /** Padding a number that is short enough shows its last digits, zeros included. */
  lemma {:induction false} PadPrint(n: nat, w: nat)
    requires w >= 1 && n < Pow10(w)
    ensures PadLeft(Print(n), w) == Digits(n, w)
  {
    if w == 1 {
      assert Digits(n / 10, 0) + [DigitChar(n)] == Print(n);
    } else {
      PadPrint(n / 10, w - 1);
      if n >= 10 {
        PrintLength(n / 10, w - 1);
        PadSplits(Print(n / 10), DigitChar(n % 10), w - 1);
      } else {
        PadSplits("0", DigitChar(n), w - 1);
        assert Print(0) == "0" && PadLeft(Print(n), w) == PadLeft("0" + Print(n), w);
      }
    }
  }

  lemma FourDigits(y: int)
    requires 0 <= y <= 9999
    ensures PrintYear(y) == Pad4(y)
  {
    assert Pow10(4) == 10 * (10 * (10 * (10 * Pow10(0))));
    PadPrint(y, 4);
    LastFour(y);
  }

  /** The sign takes one of the four characters. */
  lemma YearsBeforeZero(y: int)
    requires -999 <= y < 0
    ensures PrintYear(y) == ['-', DigitChar(-y / 100), DigitChar(-y / 10 % 10), DigitChar(-y % 10)]
  {
    var n := -y;
    assert Pow10(3) == 10 * (10 * (10 * Pow10(0)));
    PadPrint(n, 3);
    assert Digits(n, 3) == Digits(n / 10, 2) + [DigitChar(n % 10)];
    assert Digits(n / 10, 2) == Digits(n / 100, 1) + [DigitChar(n / 10 % 10)];
    assert Digits(n / 100, 1) == Digits(0, 0) + [DigitChar(n / 100)];
  }

  lemma LastFour(y: int)
    requires 0 <= y <= 9999
    ensures Digits(y, 4) == Pad4(y)
  {
    var a, b, c := y / 10, y / 100, y / 1000;
    assert a / 10 == b && b / 10 == c && c < 10;
    assert y % 100 / 10 == a % 10 && y % 100 % 10 == y % 10;
    assert Digits(c, 1) == [DigitChar(c)] by { assert Digits(c / 10, 0) == ""; }
    assert Digits(b, 2) == [DigitChar(c), DigitChar(b % 10)];
    assert Digits(a, 3) == [DigitChar(c), DigitChar(b % 10), DigitChar(a % 10)];
    assert Pad2(b) == [DigitChar(c), DigitChar(b % 10)];
  }

  lemma MillisDigits(x: int)
    requires 0 <= x < 1000
    ensures x * 1000 / 10000 == x / 10 && x * 1000 / 100 % 100 == 10 * (x % 10) && x * 1000 % 100 == 0
    ensures x == 100 * (x / 10 / 10) + 10 * (x / 10 % 10) + x % 10
  {
    assert x * 1000 == 10000 * (x / 10) + 1000 * (x % 10);
    assert x * 1000 / 100 == 10 * x && 10 * x == 100 * (x / 10) + 10 * (x % 10);
  }

  lemma Pad6Millis(x: int)
    requires 0 <= x < 1000
    ensures AllDigits(Pad6(x * 1000)) && Millis(Pad6(x * 1000)) == x
  {
    MillisDigits(x);
    var s := Pad6(x * 1000);
    assert s == Pad2(x / 10) + Pad2(10 * (x % 10)) + Pad2(0);
    assert s[0] == DigitChar(x / 10 / 10) && s[1] == DigitChar(x / 10 % 10) && s[2] == DigitChar(10 * (x % 10) / 10);
    assert 10 * (x % 10) / 10 == x % 10;
  }

  lemma FieldsOfInstant(t: int)
    requires 0 <= FromDays(t / MS_PER_DAY).year <= 9999
    ensures WellFormed(FieldsOf(t)) && Instant(FieldsOf(t)) == t
  {
    var days, ms := t / MS_PER_DAY, t % MS_PER_DAY;
    ToFrom(days);
    Pad6Millis(ms % 1000);
    ClockSplits(ms);
  }

  lemma ClockSplits(ms: int)
    requires 0 <= ms < MS_PER_DAY
    ensures 0 <= ms / 3_600_000 <= 23
    ensures ms / 3_600_000 * 3_600_000 + ms / 60_000 % 60 * 60_000 + ms / 1000 % 60 * 1000 + ms % 1000 == ms
  {
    assert ms / 60_000 / 60 == ms / 3_600_000;
    assert ms / 1000 / 60 == ms / 60_000;
  }

  lemma FormatRenders(t: int)
    requires 0 <= FromDays(t / MS_PER_DAY).year <= 9999
    ensures WellFormed(FieldsOf(t)) && Format(t) == Render(FieldsOf(t))
  {
    FieldsOfInstant(t);
    FourDigits(FromDays(t / MS_PER_DAY).year);
    var f := FieldsOf(t);
    var y, mo, d, h, mi, s, fr := Pad4(f.date.year), Pad2(f.date.month), Pad2(f.date.day), Pad2(f.hour), Pad2(f.minute), Pad2(f.second), f.fraction;
    Reassociate(y, mo, d, h, mi, s, fr);
  }

  /** The printed form, digit by digit: a date and time that exist, three decimals and three zeros, and name the instant. */
  lemma FormatWritten(t: int) returns (d: Date, h: int, m: int, sec: int, ms: int)
    requires 0 <= FromDays(t / MS_PER_DAY).year <= 9999
    ensures 0 <= d.year <= 9999 && Exists(d, h, m, sec) && 0 <= h && 0 <= m && 0 <= sec && 0 <= ms < 1000
    ensures SinceEpoch(d, h, m, sec) + ms == t
    ensures Format(t) == Written(true, d, true, h, m, sec,
                           "." + [DigitChar(ms / 100), DigitChar(ms / 10 % 10), DigitChar(ms % 10)] + "000Z")
  {
    hide ToDays, FromDays, PrintYear, Pad2, Pad4, Pad6, IsDate;
    var days := t / MS_PER_DAY;
    d := FromDays(days);
    ToFrom(days);
    DaysOfMonths(d);
    var rest := t % MS_PER_DAY;
    ClockSplits(rest);
    h, m, sec, ms := rest / 3_600_000, rest / 60_000 % 60, rest / 1000 % 60, rest % 1000;
    CivilDays(d);
    FourDigits(d.year);
    DecimalsOfMillis(ms);
  }

  lemma DecimalsOfMillis(ms: int)
    requires 0 <= ms < 1000
    ensures "." + Pad6(ms * 1000) + "Z" == "." + [DigitChar(ms / 100), DigitChar(ms / 10 % 10), DigitChar(ms % 10)] + "000Z"
  {
    MillisDigits(ms);
    assert ms / 10 / 10 == ms / 100 && 10 * (ms % 10) / 10 == ms % 10 && 10 * (ms % 10) % 10 == 0;
  }

  lemma Reassociate(y: string, mo: string, d: string, h: string, mi: string, s: string, fr: string)
    ensures y + "-" + mo + "-" + d + "T" + h + ":" + mi + ":" + s + "." + fr + "Z"
            == (y + "-" + mo + "-" + d) + ("T" + ((h + ":" + mi + ":" + s) + (("." + fr) + "Z")))
  {
  }

  /**
   * Parsing a printed time point gives it back exactly when its year is written with four digits. The years considered
   * are those of std::chrono::year.
   */
  lemma RoundTripIff(t: int)
    requires -32767 <= FromDays(t / MS_PER_DAY).year <= 32767
    ensures Parse(Format(t)) == Some(t) <==> 0 <= FromDays(t / MS_PER_DAY).year <= 9999
    ensures !(0 <= FromDays(t / MS_PER_DAY).year <= 9999) ==> Parse(Format(t)) == None
  {
    hide Parse, Format, FieldsOf, Render, PrintYear, FromDays;
    var year := FromDays(t / MS_PER_DAY).year;
    if 0 <= year <= 9999 {
      FormatRenders(t);
      FieldsOfInstant(t);
      ParseRender(FieldsOf(t));
    } else {
      var rest := YearFirst(t);
      if year < 0 {
        MinusFirst(year);
        NoDigitFirst(Format(t));
      } else {
        FiveDigits(year);
        NoMonthFifth(Format(t));
      }
    }
  }

  lemma YearFirst(t: int) returns (rest: string)
    ensures Format(t) == PrintYear(FromDays(t / MS_PER_DAY).year) + "-" + rest
  {
    hide PrintYear, Pad2, Pad6;
    var y := PrintYear(FromDays(t / MS_PER_DAY).year);
    assert |y + "-"| <= |Format(t)| && Format(t)[..|y + "-"|] == y + "-";
    rest := Format(t)[|y + "-"|..];
  }

  lemma MinusFirst(y: int)
    requires y < 0
    ensures |PrintYear(y)| > 0 && PrintYear(y)[0] == '-'
  {
  }

  lemma NoDigitFirst(s: string)
    requires s != "" && s[0] == '-'
    ensures Parse(s) == None
  {
    assert !TwoDigits(s, 0);
  }

  lemma NoMonthFifth(s: string)
    requires |s| > 5 && IsDigit(s[4]) && s[5] == '-'
    ensures Parse(s) == None
  {
    assert !TwoDigits(s, 4);
  }

  lemma FiveDigits(y: int)
    requires 10000 <= y <= 32767
    ensures |PrintYear(y)| == 5 && forall i :: 0 <= i < 5 ==> IsDigit(PrintYear(y)[i])
  {
    PrintDigits(y);
    assert |Print(y / 10000)| == 1;
    assert |Print(y / 1000)| == 2;
    assert |Print(y / 100)| == 3;
    assert |Print(y / 10)| == 4;
  }
}
