/**
 The workout record shared by both activity kinds (the `Workout` base class):
 its stored inputs, the id and description derived at construction, and the
 click counter. The two kinds are the constructors of one tagged union, so a
 record carries exactly one kind-specific input and one derived metric.
 */
module Workouts {
  import opened Wrappers
  import opened JsNumbers
  import Decimal

  /** `Date.getMonth()`: zero-based month */
  type Month = m: int | 0 <= m < 12

  /** `Date.getDate()`: day of the month */
  type DayOfMonth = d: int | 1 <= d <= 31 witness 1

  datatype CalendarDate = CalendarDate(month: Month, day: DayOfMonth)

  /**
   What the constructor reads from the system clock. The date field and the id
   come from two separate `new Date()` calls, so they are two readings here.
   */
  datatype Clock = Clock(date: CalendarDate, millis: int)

  /** Latitude and longitude */
  datatype Coords = Coords(lat: real, lng: real)

  /** The fields every workout has */
  datatype Base = Base(
    date: CalendarDate,
    id: string,
    description: string,
    clicks: nat,
    coords: Coords,
    distance: real,   // km
    duration: real,   // min
    kind: string)     // the `type` tag: "running" or "cycling"

  /**
   A running workout keeps its cadence (`cedance` in the source) and its pace in
   minutes per km; a cycling workout keeps its elevation gain and its speed in
   km/h. A kind-specific input is `None` where the source holds `undefined`.
   */
  datatype Workout =
    | Running(base: Base, cedance: Option<real>, pace: Number)
    | Cycling(base: Base, elevationGain: Option<real>, speed: Number)

  const MonthNames: seq<string> := [
    "January", "February", "March", "April", "May", "June",
    "July", "August", "September", "October", "November", "December"]

  /** `c.toUpperCase()` for one character; only the ASCII letters are mapped. */
  function UpperAscii(c: char): (u: char)
    ensures 'a' <= c <= 'z' ==> 'A' <= u <= 'Z' && u as int - 'A' as int == c as int - 'a' as int
    ensures !('a' <= c <= 'z') ==> u == c
  {
    if 'a' <= c <= 'z' then (c as int - 'a' as int + 'A' as int) as char else c
  }

  /** The string with its first character upper-cased. */
  function Capitalize(s: string): (r: string)
    requires |s| > 0
    ensures |r| == |s| && r[0] == UpperAscii(s[0]) && r[1..] == s[1..]
  {
    [UpperAscii(s[0])] + s[1..]
  }

  /** The description template: "<Type> on <Month> <Day>". */
  function Describe(kind: string, date: CalendarDate): string
    requires |kind| > 0
  {
    Capitalize(kind) + " on " + MonthNames[date.month] + " " + Decimal.NatToString(date.day)
  }

  /** The id: the last ten characters of the timestamp in milliseconds, written in decimal. */
  function IdOf(millis: int): (id: string)
    ensures |id| <= 10
    ensures |id| <= |Decimal.IntToString(millis)|
    ensures |id| == 10 || id == Decimal.IntToString(millis)
    ensures id == Decimal.IntToString(millis)[|Decimal.IntToString(millis)| - |id|..]
  {
    Decimal.Suffix(Decimal.IntToString(millis), 10)
  }

  /**
   The base constructor. It stores its arguments as given, starts the click
   counter at zero and derives the id and description from the clock. The
   source reads `type[0]`, which throws for an empty type string.
   */
  function NewBase(coords: Coords, distance: real, duration: real, kind: string, clock: Clock): (b: Base)
    requires |kind| > 0
    ensures b.coords == coords && b.distance == distance && b.duration == duration && b.kind == kind
    ensures b.clicks == 0
    ensures b.date == clock.date
    ensures b.id == IdOf(clock.millis)
    ensures |b.description| > |kind| && b.description[..|kind|] == Capitalize(kind)
    ensures b.description == Describe(kind, clock.date)
  {
    Base(clock.date, IdOf(clock.millis), Describe(kind, clock.date), 0, coords, distance, duration, kind)
  }

  /** `click()`: one more click, nothing else changes. */
  function Click(w: Workout): (r: Workout)
    ensures r.base.clicks == w.base.clicks + 1
    ensures r.(base := r.base.(clicks := w.base.clicks)) == w
  {
    w.(base := w.base.(clicks := w.base.clicks + 1))
  }

  /** `n` calls of `click()` */
  function ClickTimes(w: Workout, n: nat): Workout
  {
    if n == 0 then w else Click(ClickTimes(w, n - 1))
  }

  lemma {:induction false} ClickTimesCounts(w: Workout, n: nat)
    ensures ClickTimes(w, n).base.clicks == w.base.clicks + n
    ensures ClickTimes(w, n).(base := ClickTimes(w, n).base.(clicks := w.base.clicks)) == w
  {
    if n > 0 {
      ClickTimesCounts(w, n - 1);
    }
  }

  /**
   The description reads back: the capitalised type, " on ", the month name
   from the table, a space, and one or two digits whose value is the day.
   */
  lemma DescriptionLayout(kind: string, date: CalendarDate)
    requires |kind| > 0
    ensures var d := Describe(kind, date);
            var m := |kind| + 4;
            var n := m + |MonthNames[date.month]| + 1;
            && n < |d| <= n + 2
            && d[..|kind|] == Capitalize(kind)
            && d[|kind|..m] == " on "
            && d[m..n - 1] == MonthNames[date.month]
            && d[n - 1] == ' '
            && Decimal.IsDigits(d[n..])
            && Decimal.DigitsValue(d[n..]) == date.day
  {
    var day := Decimal.NatToString(date.day);
    var d := Describe(kind, date);
    var m := |kind| + 4;
    var n := m + |MonthNames[date.month]| + 1;
    assert d == Capitalize(kind) + " on " + MonthNames[date.month] + " " + day;
    assert d[n..] == day;
    Decimal.NatToStringLength(date.day, 2);
    assert Decimal.Pow10(2) == 100;
    Decimal.NatToStringRoundTrip(date.day);
  }

  /**
   Once the timestamp has ten digits, the id is the timestamp modulo 10^10,
   zero padded: ids repeat every 10^10 ms, and two such timestamps share an id
   exactly when they agree modulo 10^10.
   */
  lemma IdIsTimestampModulo(millis: int)
    requires millis >= Decimal.Pow10(9)
    ensures IdOf(millis) == Decimal.Padded(millis % Decimal.Pow10(10), 10)
  {
    Decimal.NatToStringLength(millis, 9);
    Decimal.NatToStringSuffix(millis, 10);
  }

  lemma IdCollision(a: int, b: int)
    requires a >= Decimal.Pow10(9) && b >= Decimal.Pow10(9)
    ensures IdOf(a) == IdOf(b) <==> a % Decimal.Pow10(10) == b % Decimal.Pow10(10)
  {
    IdIsTimestampModulo(a);
    IdIsTimestampModulo(b);
    Decimal.PaddedInjective(a % Decimal.Pow10(10), b % Decimal.Pow10(10), 10);
  }
}
