/**
 * The planner's records and its half-hour timeline: a day has 48 slots of 30
 * minutes, a task starts on a slot and lasts a whole number of slots.
 */
module Types {
  import opened Wrappers
  import opened Text
  import opened Calendar

  /** Number of half-hour slots in a day. */
  const TOTAL_SLOTS: int := 48
  const SLOT_MINUTES: int := 30
  const MINUTES_PER_DAY: int := 24 * 60

  const TASK_COLORS: seq<string> := [
    "#5E97F6", "#E67C73", "#F6BF26", "#33B679", "#8E24AA",
    "#039BE5", "#F4511E", "#616161", "#D81B60", "#0B8043"
  ]

  /** A task on one day's timeline; `location` and `notes` may be absent. */
  datatype Task = Task(
    id: string,
    title: string,
    startHour: int,
    startMinute: int,
    duration: int,
    color: string,
    location: Option<string>,
    notes: Option<string>)

  datatype GoodThings = GoodThings(thing1: string, thing2: string, thing3: string)

  datatype Improvements = Improvements(item1: string, item2: string, item3: string)

  /**
   * One day's record. `improvements` is absent only in records written before the
   * three-item form existed; those carry the single legacy `improvement` text.
   */
  datatype DayData = DayData(
    date: string,
    tasks: seq<Task>,
    goodThings: GoodThings,
    improvements: Option<Improvements>,
    improvement: Option<string>)

  /** A clock reading on the half-hour grid. */
  datatype Clock = Clock(hour: int, minute: int)

  /** Minutes from midnight at which a task starts. */
  function StartMinutes(t: Task): int {
    t.startHour * 60 + t.startMinute
  }

  /**
   * The shape every task keeps: it starts at hh:00 or hh:30 of the day, lasts a
   * positive whole number of half hours and ends by 24:00.
   */
  predicate WellFormedTask(t: Task) {
    && 0 <= t.startHour < 24
    && (t.startMinute == 0 || t.startMinute == 30)
    && t.duration > 0 && t.duration % SLOT_MINUTES == 0
    && StartMinutes(t) + t.duration <= MINUTES_PER_DAY
  }

  predicate AllWellFormed(tasks: seq<Task>) {
    forall i :: 0 <= i < |tasks| ==> WellFormedTask(tasks[i])
  }

  /** A record whose journal has the three-item improvements. */
  predicate IsMigrated(d: DayData) {
    d.improvements.Some?
  }

  /** A new record for day `dateStr`: no tasks and all six journal entries empty. */
  function CreateEmptyDayData(dateStr: string): (d: DayData)
    ensures d.date == dateStr && d.tasks == []
    ensures d.goodThings == GoodThings("", "", "")
    ensures IsMigrated(d) && d.improvements.value == Improvements("", "", "")
    ensures d.improvement.None?
  {
    DayData(dateStr, [], GoodThings("", "", ""), Some(Improvements("", "", "")), None)
  }

  /** `data.improvement || ''`: the legacy text, or empty when it is absent. */
  function LegacyImprovement(d: DayData): (s: string)
    ensures d.improvement.Some? ==> s == d.improvement.value
    ensures d.improvement.None? ==> s == ""
  {
    match d.improvement
    case Some(s) => s
    case None => ""
  }

  /**
   * Brings an old record to the three-item form: a record without `improvements`
   * gets the legacy text as its first item; a record with them is left alone.
   */
  function MigrateDayData(data: DayData): (r: DayData)
    ensures IsMigrated(r)
    ensures IsMigrated(data) ==> r == data
    ensures !IsMigrated(data) ==>
      r == data.(improvements := Some(Improvements(LegacyImprovement(data), "", "")))
  {
    if data.improvements.None? then
      data.(improvements := Some(Improvements(LegacyImprovement(data), "", "")))
    else
      data
  }

  /** Migration is idempotent, and a fresh record needs none. */
  lemma MigrateIdempotent(data: DayData, dateStr: string)
    ensures MigrateDayData(MigrateDayData(data)) == MigrateDayData(data)
    ensures MigrateDayData(CreateEmptyDayData(dateStr)) == CreateEmptyDayData(dateStr)
  {
  }

  /** Migration touches nothing but the improvements. */
  lemma MigrateKeepsContent(data: DayData)
    ensures var r := MigrateDayData(data);
      r.date == data.date && r.tasks == data.tasks && r.goodThings == data.goodThings
      && r.improvement == data.improvement
  {
  }

  /** The clock as `HH:MM`, each part zero-padded to two digits. */
  function FormatTime(hour: nat, minute: nat): (s: string)
    ensures 5 <= |s| && |s| == |TwoDigits(hour)| + 1 + |TwoDigits(minute)|
    ensures s[|TwoDigits(hour)|] == ':'
  {
    TwoDigits(hour) + ":" + TwoDigits(minute)
  }

  /** For an hour and a minute below 100 the text is `DD:DD` and spells both numbers. */
  lemma FormatTimeShape(hour: nat, minute: nat)
    requires hour < 100 && minute < 100
    ensures var s := FormatTime(hour, minute);
      && |s| == 5 && s[2] == ':'
      && IsDigit(s[0]) && IsDigit(s[1]) && IsDigit(s[3]) && IsDigit(s[4])
      && DigitValue(s[0]) * 10 + DigitValue(s[1]) == hour
      && DigitValue(s[3]) * 10 + DigitValue(s[4]) == minute
  {
    TwoDigitsValue(hour);
    TwoDigitsValue(minute);
    PairAround(TwoDigits(hour), ':', TwoDigits(minute));
  }

  function Abs(x: int): nat {
    if x < 0 then -x else x
  }

  /**
   * `Math.round(minutes / 30) * 30`: the multiple of 30 nearest to `minutes`,
   * a tie (15 past a grid line) going up, as `Math.round` does.
   */
  function SnapToGrid(minutes: int): (r: int)
    ensures r % 30 == 0
    ensures minutes - 15 < r <= minutes + 15
    ensures r == minutes + 15 <==> minutes % 30 == 15
  {
    ((minutes + 15) / 30) * 30
  }

  /** No multiple of 30 is closer to `minutes` than `SnapToGrid(minutes)`. */
  lemma SnapToGridNearest(minutes: int, k: int)
    ensures Abs(SnapToGrid(minutes) - minutes) <= Abs(30 * k - minutes)
  {
    var r := SnapToGrid(minutes);
    if 30 * k < r {
      assert 30 * k <= r - 30 by {
        assert r == 30 * ((minutes + 15) / 30);
      }
    } else if 30 * k > r {
      assert 30 * k >= r + 30 by {
        assert r == 30 * ((minutes + 15) / 30);
      }
    }
  }

  /** The slot holding the given clock time: two per hour, the second from minute 30 on. */
  function MinutesToSlot(hour: int, minute: int): (slot: int)
    ensures 0 <= minute < 60 ==> 30 * slot <= 60 * hour + minute < 30 * (slot + 1)
  {
    hour * 2 + (if minute >= 30 then 1 else 0)
  }

  /** The clock time at which slot `slot` begins. */
  function SlotToTime(slot: nat): (c: Clock)
    ensures c.minute == 0 || c.minute == 30
    ensures c.hour >= 0 && 2 * c.hour + c.minute / 30 == slot
  {
    Clock(slot / 2, (slot % 2) * 30)
  }

  /** Every slot survives the trip to a clock time and back. */
  lemma SlotRoundTrip(slot: nat)
    ensures MinutesToSlot(SlotToTime(slot).hour, SlotToTime(slot).minute) == slot
  {
  }

  /** A grid time of the day lies in slot 0..47, and that slot begins at that time. */
  lemma GridTimeRoundTrip(hour: int, minute: int)
    requires 0 <= hour < 24 && (minute == 0 || minute == 30)
    ensures 0 <= MinutesToSlot(hour, minute) < TOTAL_SLOTS
    ensures SlotToTime(MinutesToSlot(hour, minute)) == Clock(hour, minute)
  {
  }

  /** Any minute from 30 on counts for the second half of the hour, below 30 for the first. */
  lemma MinutesToSlotHalves(hour: int, minute: int)
    requires 0 <= minute < 60
    ensures minute >= 30 ==> MinutesToSlot(hour, minute) == 2 * hour + 1
    ensures minute < 30 ==> MinutesToSlot(hour, minute) == 2 * hour
  {
  }

  /** `YYYY-MM-DD` for a date: the year as written, month (one-based) and day padded to two digits. */
  function FormatDateStr(d: Date): (s: string)
    requires ValidDate(d)
    ensures IsDateKey(s)
    ensures d.year >= 0 ==> AllDigits(s[..|s| - 6])
  {
    DateStrShape(d.year, d.month + 1, d.day);
    IntToString(d.year) + "-" + TwoDigits(d.month + 1) + "-" + TwoDigits(d.day)
  }

  /** `<year>-DD-DD`: anything of at least one character, then a dash, two digits, a dash and two digits. */
  predicate IsDateKey(s: string) {
    && 7 <= |s| && s[|s| - 6] == '-' && s[|s| - 3] == '-'
    && IsDigit(s[|s| - 5]) && IsDigit(s[|s| - 4]) && IsDigit(s[|s| - 2]) && IsDigit(s[|s| - 1])
  }

  /** The shape of a date key, stated on its three numbers. */
  lemma DateStrShape(year: int, month: nat, day: nat)
    requires month < 100 && day < 100
    ensures var s := IntToString(year) + "-" + TwoDigits(month) + "-" + TwoDigits(day);
      IsDateKey(s) && (year >= 0 ==> AllDigits(s[..|s| - 6]))
  {
    TwoDigitsValue(month);
    TwoDigitsValue(day);
    DateStrTail(IntToString(year), TwoDigits(month), TwoDigits(day));
  }

  /** `y-mm-dd` with two-digit month and day ends in a dash, two digits, a dash and two digits. */
  lemma DateStrTail(y: string, mm: string, dd: string)
    requires |y| >= 1 && |mm| == 2 && AllDigits(mm) && |dd| == 2 && AllDigits(dd)
    ensures var s := y + "-" + mm + "-" + dd;
      IsDateKey(s) && (AllDigits(y) ==> AllDigits(s[..|s| - 6]))
  {
    var s := y + "-" + mm + "-" + dd;
    assert s == y + ['-', mm[0], mm[1], '-', dd[0], dd[1]];
    assert s[..|s| - 6] == y;
  }

  /** Two digits at `s[i]`, `s[i + 1]` read as a number. */
  function TwoDigitValue(s: string, i: nat): int
    requires i + 1 < |s| && IsDigit(s[i]) && IsDigit(s[i + 1])
  {
    DigitValue(s[i]) * 10 + DigitValue(s[i + 1])
  }

  /** Reads a `Y-MM-DD` key with a non-negative year back into a date. */
  function ParseDateStr(s: string): Option<Date> {
    var k := LeadingDigits(s);
    if k == 0 || |s| != k + 6 || s[k] != '-' || s[k + 3] != '-' then None
    else if !(IsDigit(s[k + 1]) && IsDigit(s[k + 2]) && IsDigit(s[k + 4]) && IsDigit(s[k + 5])) then None
    else Some(Date(DecimalValue(s[..k]), TwoDigitValue(s, k + 1) - 1, TwoDigitValue(s, k + 4)))
  }

  /** A run of digits, a dash, two digits, a dash and two digits parses field by field. */
  lemma {:induction false} ParseDateStrFields(y: string, mm: string, dd: string, d: Date)
    requires 1 <= |y| && AllDigits(y) && DecimalValue(y) == d.year
    requires |mm| == 2 && AllDigits(mm) && DigitValue(mm[0]) * 10 + DigitValue(mm[1]) == d.month + 1
    requires |dd| == 2 && AllDigits(dd) && DigitValue(dd[0]) * 10 + DigitValue(dd[1]) == d.day
    ensures ParseDateStr(y + "-" + mm + "-" + dd) == Some(d)
  {
    var rest := "-" + mm + "-" + dd;
    assert y + "-" + mm + "-" + dd == y + rest;
    assert rest == ['-', mm[0], mm[1], '-', dd[0], dd[1]];
    var s := y + rest;
    var k := |y|;
    LeadingDigitsOfDigitsThen(y, rest);
    assert s[..k] == y;
    assert s[k] == rest[0] && s[k + 1] == rest[1] && s[k + 2] == rest[2];
    assert s[k + 3] == rest[3] && s[k + 4] == rest[4] && s[k + 5] == rest[5];
  }

  /** For a non-negative year the key is the year's digits, then the padded month and day. */
  lemma FormatDateStrParts(d: Date)
    requires ValidDate(d) && d.year >= 0
    ensures FormatDateStr(d) == NatToString(d.year) + "-" + TwoDigits(d.month + 1) + "-" + TwoDigits(d.day)
  {
  }

  /** A formatted date key reads back as the date it was made from. */
  lemma DateStrRoundTrip(d: Date)
    requires ValidDate(d) && d.year >= 0
    ensures ParseDateStr(FormatDateStr(d)) == Some(d)
  {
    var y, mm, dd := NatToString(d.year), TwoDigits(d.month + 1), TwoDigits(d.day);
    FormatDateStrParts(d);
    TwoDigitsValue(d.month + 1);
    TwoDigitsValue(d.day);
    DecimalValueOfNatToString(d.year);
    ParseDateStrFields(y, mm, dd, d);
  }

  /** Distinct dates get distinct keys, so each day has its own record. */
  lemma DateStrInjective(a: Date, b: Date)
    requires ValidDate(a) && a.year >= 0 && ValidDate(b) && b.year >= 0
    requires FormatDateStr(a) == FormatDateStr(b)
    ensures a == b
  {
    DateStrRoundTrip(a);
    DateStrRoundTrip(b);
  }

  /** `formatDateStr(day)` for the day numbered `n`. */
  function DayKey(n: int): (s: string)
    ensures IsDateKey(s)
  {
    FormatDateStr(DateOf(n))
  }

  /** From 0001-01-01 on, different days get different keys. */
  lemma DayKeyInjective(a: int, b: int)
    requires 0 <= a && 0 <= b && DayKey(a) == DayKey(b)
    ensures a == b
  {
    DateStrInjective(DateOf(a), DateOf(b));
  }


  /**
   * The Monday that starts the week of day `date` (weeks run Monday to Sunday):
   * the copy of the date is moved back by 1..6 days, or by 6 from a Sunday.
   */
  method GetWeekStart(date: int) returns (monday: int)
    ensures Weekday(monday) == 1
    ensures 0 <= date - monday <= 6
    ensures Weekday(date) == 0 ==> monday == date - 6
  {
    var d := date;
    var day := Weekday(d);
    var diff := if day == 0 then -6 else 1 - day;
    d := d + diff;
    monday := d;
  }

  /** Only one Monday lies in the six days up to and including any day. */
  lemma WeekStartUnique(date: int, m1: int, m2: int)
    requires Weekday(m1) == 1 && 0 <= date - m1 <= 6
    requires Weekday(m2) == 1 && 0 <= date - m2 <= 6
    ensures m1 == m2
  {
  }

  /** The seven consecutive days starting at `weekStart`. */
  method GetWeekDays(weekStart: int) returns (days: seq<int>)
    ensures |days| == 7
    ensures forall i :: 0 <= i < 7 ==> days[i] == weekStart + i
  {
    days := [];
    for i := 0 to 7
      invariant |days| == i
      invariant forall j :: 0 <= j < i ==> days[j] == weekStart + j
    {
      var d := weekStart;
      d := d + i;
      days := days + [d];
    }
  }

  /** A week that starts on Monday runs Monday, Tuesday, ..., Sunday. */
  lemma WeekFromMonday(weekStart: int, i: int)
    requires Weekday(weekStart) == 1 && 0 <= i < 7
    ensures Weekday(weekStart + i) == (i + 1) % 7
  {
  }
}
