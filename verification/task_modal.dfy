/**
 * The task form: its initial field values, the validation and duration clamp
 * applied on submit, and the two option lists it offers (start times and
 * durations).
 */
module TaskModal {
  import opened Wrappers
  import opened Text
  import opened Types

  /** Start time and day proposed for a new task. */
  datatype Defaults = Defaults(startHour: int, startMinute: int, dateStr: string)

  /** The form's fields, as the user left them. */
  datatype Form = Form(
    title: string,
    dateStr: string,
    startHour: int,
    startMinute: int,
    duration: int,
    color: string,
    location: string,
    notes: string)

  /** What submitting hands to the planner: the task and the day it goes to. */
  datatype Saved = Saved(task: Task, dateStr: string)

  function OrEmpty(s: Option<string>): (r: string)
    ensures s.Some? ==> r == s.value
    ensures s.None? ==> r == ""
  {
    match s
    case Some(v) => v
    case None => ""
  }

  /**
   * The fields when the form opens: those of the task being edited, otherwise the
   * proposed start (09:00 if none), one hour, the first colour and empty text.
   */
  function InitialForm(task: Option<Task>, defaults: Option<Defaults>, currentDateStr: string): (f: Form)
    ensures task.Some? ==>
      f == Form(task.value.title, currentDateStr, task.value.startHour, task.value.startMinute,
                task.value.duration, task.value.color, OrEmpty(task.value.location), OrEmpty(task.value.notes))
    ensures task.None? ==>
      && f.title == "" && f.location == "" && f.notes == "" && f.dateStr == currentDateStr
      && f.duration == 60 && f.color == TASK_COLORS[0]
      && f.startHour == (if defaults.Some? then defaults.value.startHour else 9)
      && f.startMinute == (if defaults.Some? then defaults.value.startMinute else 0)
  {
    match task
    case Some(t) =>
      Form(t.title, currentDateStr, t.startHour, t.startMinute, t.duration, t.color,
           OrEmpty(t.location), OrEmpty(t.notes))
    case None =>
      var h := if defaults.Some? then defaults.value.startHour else 9;
      var m := if defaults.Some? then defaults.value.startMinute else 0;
      Form("", currentDateStr, h, m, 60, TASK_COLORS[0], "", "")
  }

  /**
   * The saved duration: the requested one when the task would end by 24:00,
   * otherwise whatever is left of the day after its start.
   */
  function ClampDuration(startHour: int, startMinute: int, duration: int): (d: int)
    ensures startHour * 60 + startMinute + d <= MINUTES_PER_DAY
    ensures d <= duration
    ensures startHour * 60 + startMinute + duration <= MINUTES_PER_DAY ==> d == duration
    ensures startHour * 60 + startMinute + duration > MINUTES_PER_DAY ==>
      startHour * 60 + startMinute + d == MINUTES_PER_DAY
  {
    var start := startHour * 60 + startMinute;
    if start + duration > MINUTES_PER_DAY then MINUTES_PER_DAY - start else duration
  }

  /** `text.trim() || undefined`: trimmed text, absent when nothing is left. */
  function OptionalText(s: string): (r: Option<string>)
    ensures r.None? <==> Trim(s) == []
    ensures r.Some? ==> r.value == Trim(s)
  {
    var t := Trim(s);
    if t == [] then None else Some(t)
  }

  /**
   * Submitting the form. Nothing is saved for a title that is blank after trimming
   * or when fewer than 30 minutes remain after the clamp; otherwise the task keeps
   * the edited task's id (a new one, `freshId`, when there is none or it is empty).
   */
  function Submit(form: Form, editing: Option<Task>, freshId: string): (r: Option<Saved>)
    ensures r.None? <==>
      (Trim(form.title) == [] || ClampDuration(form.startHour, form.startMinute, form.duration) < 30)
    ensures r.Some? ==>
      var t := r.value.task;
      && r.value.dateStr == form.dateStr
      && t.id == (if editing.Some? && editing.value.id != "" then editing.value.id else freshId)
      && t.title == Trim(form.title) && t.title != []
      && t.startHour == form.startHour && t.startMinute == form.startMinute
      && t.duration == ClampDuration(form.startHour, form.startMinute, form.duration)
      && 30 <= t.duration <= form.duration
      && StartMinutes(t) + t.duration <= MINUTES_PER_DAY
      && t.color == form.color
      && t.location == OptionalText(form.location) && t.notes == OptionalText(form.notes)
  {
    var title := Trim(form.title);
    if title == [] then None
    else
      var finalDuration := ClampDuration(form.startHour, form.startMinute, form.duration);
      if finalDuration < 30 then None
      else
        var id := if editing.Some? && editing.value.id != "" then editing.value.id else freshId;
        Some(Saved(Task(id, title, form.startHour, form.startMinute, finalDuration, form.color,
                        OptionalText(form.location), OptionalText(form.notes)),
                   form.dateStr))
  }

  /**
   * With the start picked from the time list and the duration from the duration
   * list, whatever is saved is a well-formed task: the clamp keeps it on the grid.
   */
  lemma SubmitWellFormed(form: Form, editing: Option<Task>, freshId: string)
    requires 0 <= form.startHour < 24 && (form.startMinute == 0 || form.startMinute == 30)
    requires form.duration % 30 == 0
    ensures Submit(form, editing, freshId).Some? ==> WellFormedTask(Submit(form, editing, freshId).value.task)
  {
    var r := Submit(form, editing, freshId);
    if r.Some? {
      var t := r.value.task;
      assert t.duration == ClampDuration(form.startHour, form.startMinute, form.duration);
      ClampOnGrid(form.startHour, form.startMinute, form.duration);
    }
  }

  /** On the grid in, on the grid out: the clamp only ever cuts at 24:00. */
  lemma ClampOnGrid(startHour: int, startMinute: int, duration: int)
    requires startMinute == 0 || startMinute == 30
    requires duration % 30 == 0
    ensures ClampDuration(startHour, startMinute, duration) % 30 == 0
  {
  }

  /** A title with text in it, no surrounding blanks. */
  predicate IsTrimmedText(s: string) {
    s != [] && Trim(s) == s
  }

  /**
   * A task in the shape the form itself saves: well-formed, non-empty id, trimmed
   * title, and location and notes either absent or trimmed non-empty text.
   */
  predicate IsSubmittedShape(t: Task) {
    && WellFormedTask(t)
    && t.id != ""
    && IsTrimmedText(t.title)
    && (t.location.Some? ==> IsTrimmedText(t.location.value))
    && (t.notes.Some? ==> IsTrimmedText(t.notes.value))
  }

  /** Opening a saved task and submitting it unchanged saves the same task on the same day. */
  lemma ResubmitUnchanged(t: Task, defaults: Option<Defaults>, currentDateStr: string, freshId: string)
    requires IsSubmittedShape(t)
    ensures Submit(InitialForm(Some(t), defaults, currentDateStr), Some(t), freshId) == Some(Saved(t, currentDateStr))
  {
    var f := InitialForm(Some(t), defaults, currentDateStr);
    assert f.title == t.title && f.startHour == t.startHour && f.startMinute == t.startMinute;
    assert f.duration == t.duration && f.dateStr == currentDateStr;
    assert t.duration >= 30;
    OptionalTextOfOptional(t.location);
    OptionalTextOfOptional(t.notes);
    var r := Submit(f, Some(t), freshId);
    assert r.Some?;
    var u := r.value.task;
    assert u.id == t.id && u.title == t.title && u.duration == t.duration;
    assert u.startHour == t.startHour && u.startMinute == t.startMinute && u.color == t.color;
    assert u.location == t.location && u.notes == t.notes;
    assert u == t;
  }

  /** Text that is absent or already trimmed survives the form's `|| ''` and `trim() || undefined`. */
  lemma OptionalTextOfOptional(s: Option<string>)
    requires s.Some? ==> IsTrimmedText(s.value)
    ensures OptionalText(OrEmpty(s)) == s
  {
    if s.None? {
      TrimSpec("");
    }
  }

  /** One entry of the start-time list. */
  datatype TimeOption = TimeOption(hour: int, minute: int, caption: string)

  /** The entry for the time at which slot `slot` begins. */
  function SlotOption(slot: nat): TimeOption {
    var c := SlotToTime(slot);
    TimeOption(c.hour, c.minute, FormatTime(c.hour, c.minute))
  }

  /** The start times 00:00, 00:30, ..., 23:30: entry `i` is the start of slot `i`. */
  method TimeOptions() returns (options: seq<TimeOption>)
    ensures |options| == TOTAL_SLOTS
    ensures forall i :: 0 <= i < |options| ==> options[i] == SlotOption(i)
  {
    options := [];
    for h := 0 to 24
      invariant |options| == 2 * h
      invariant forall i :: 0 <= i < |options| ==> options[i] == SlotOption(i)
    {
      var m := 0;
      while m < 60
        invariant m == 0 || m == 30 || m == 60
        invariant 30 * |options| == 60 * h + m
        invariant forall i :: 0 <= i < |options| ==> options[i] == SlotOption(i)
      {
        SlotOptionAt(|options|, h, m);
        AppendIndexed(options, TimeOption(h, m, FormatTime(h, m)), SlotOption);
        options := options + [TimeOption(h, m, FormatTime(h, m))];
        m := m + 30;
      }
    }
  }

  /** A list whose entry `i` is `f(i)` keeps that shape when `f` of its length is appended. */
  lemma AppendIndexed<T>(xs: seq<T>, next: T, f: nat -> T)
    requires forall i :: 0 <= i < |xs| ==> xs[i] == f(i)
    requires next == f(|xs|)
    ensures forall i :: 0 <= i < |xs + [next]| ==> (xs + [next])[i] == f(i)
  {
    forall i | 0 <= i < |xs + [next]|
      ensures (xs + [next])[i] == f(i)
    {
      if i < |xs| {
        assert (xs + [next])[i] == xs[i];
      } else {
        assert (xs + [next])[i] == next;
      }
    }
  }

  /** The entry for `h:m` is the one for slot `2 * h + m / 30`. */
  lemma SlotOptionAt(slot: nat, h: int, m: int)
    requires 0 <= h && (m == 0 || m == 30) && 30 * slot == 60 * h + m
    ensures SlotOption(slot) == TimeOption(h, m, FormatTime(h, m))
  {
    assert SlotToTime(slot) == Clock(h, m);
  }

  /**
   * The time list is in strictly increasing order of time, every entry is a grid
   * time of the day, and its slot is its position.
   */
  lemma TimeOptionsOrdered(i: nat, j: nat)
    requires i < j < TOTAL_SLOTS
    ensures 0 <= SlotOption(i).hour < 24 && (SlotOption(i).minute == 0 || SlotOption(i).minute == 30)
    ensures SlotOption(i).hour * 60 + SlotOption(i).minute < SlotOption(j).hour * 60 + SlotOption(j).minute
    ensures MinutesToSlot(SlotOption(i).hour, SlotOption(i).minute) == i
  {
  }

  /** One entry of the duration list. */
  datatype DurationOption = DurationOption(value: int, caption: string)

  /** The duration's label: hours then minutes, leaving out a part that is zero. */
  function DurationLabel(d: nat): (s: string)
    ensures 3 <= |s|
    ensures d >= 60 && d % 60 == 0 ==> s[|s| - 2..] == "小时"
    ensures !(d >= 60 && d % 60 == 0) ==> s[|s| - 2..] == "分钟"
    ensures d < 60 ==> s == NatToString(d) + "分钟"
    ensures d >= 60 ==> |NatToString(d / 60)| + 2 <= |s| && s[..|NatToString(d / 60)| + 2] == NatToString(d / 60) + "小时"
    ensures d >= 60 && d % 60 == 0 ==> s == NatToString(d / 60) + "小时"
    ensures d >= 60 && d % 60 != 0 ==> |NatToString(d / 60)| + 4 <= |s| && s[|NatToString(d / 60)| + 2..|s| - 2] == NatToString(d % 60)
  {
    var hours := d / 60;
    var mins := d % 60;
    if hours > 0 && mins > 0 then NatToString(hours) + "小时" + NatToString(mins) + "分钟"
    else if hours > 0 then NatToString(hours) + "小时"
    else NatToString(mins) + "分钟"
  }

  /** Reads a duration label back into minutes. */
  function ParseDurationLabel(s: string): Option<nat> {
    var k := LeadingDigits(s);
    if k == 0 then None else ParseUnits(DecimalValue(s[..k]), s[k..])
  }

  /** What follows the leading number: `分钟`, `小时`, or `小时` then `<minutes>分钟`. */
  function ParseUnits(first: nat, rest: string): Option<nat> {
    if rest == "分钟" then Some(first)
    else if rest == "小时" then Some(first * 60)
    else if |rest| > 2 && rest[..2] == "小时" then
      match ParseMinutesPart(rest[2..])
      case Some(mins) => Some(first * 60 + mins)
      case None => None
    else None
  }

  /** Reads the `<minutes>分钟` that may follow the hours. */
  function ParseMinutesPart(s: string): Option<nat> {
    var k := LeadingDigits(s);
    if k == 0 || s[k..] != "分钟" then None else Some(DecimalValue(s[..k]))
  }

  /** A number followed by a unit that does not start with a digit is read as that number, then that unit. */
  lemma NumberThenUnit(n: nat, unit: string)
    requires unit != [] && !IsDigit(unit[0])
    ensures ParseDurationLabel(NatToString(n) + unit) == ParseUnits(n, unit)
  {
    var s := NatToString(n) + unit;
    LeadingDigitsOfDigitsThen(NatToString(n), unit);
    assert s[..|NatToString(n)|] == NatToString(n);
    assert s[|NatToString(n)|..] == unit;
    DecimalValueOfNatToString(n);
  }

  lemma MinutesPartOf(mins: nat)
    ensures ParseMinutesPart(NatToString(mins) + "分钟") == Some(mins)
  {
    var s := NatToString(mins) + "分钟";
    LeadingDigitsOfDigitsThen(NatToString(mins), "分钟");
    assert s[..|NatToString(mins)|] == NatToString(mins);
    assert s[|NatToString(mins)|..] == "分钟";
    DecimalValueOfNatToString(mins);
  }

  lemma HoursThenMinutes(hours: nat, tail: string, mins: nat)
    requires ParseMinutesPart(tail) == Some(mins)
    ensures ParseUnits(hours, "小时" + tail) == Some(hours * 60 + mins)
  {
    var rest := "小时" + tail;
    assert |tail| >= 2;
    assert rest[..2] == "小时" && rest[2..] == tail;
  }

  lemma ParseHoursAndMinutes(hours: nat, mins: nat)
    ensures ParseDurationLabel(NatToString(hours) + "小时" + NatToString(mins) + "分钟") == Some(hours * 60 + mins)
  {
    var tail := NatToString(mins) + "分钟";
    assert NatToString(hours) + "小时" + NatToString(mins) + "分钟" == NatToString(hours) + ("小时" + tail);
    NumberThenUnit(hours, "小时" + tail);
    MinutesPartOf(mins);
    HoursThenMinutes(hours, tail, mins);
  }

  /** Each label names its duration: reading it back gives the minutes it was made from. */
  lemma DurationLabelRoundTrip(d: nat)
    ensures ParseDurationLabel(DurationLabel(d)) == Some(d)
  {
    var hours := d / 60;
    var mins := d % 60;
    assert d == hours * 60 + mins;
    if hours > 0 && mins > 0 {
      assert DurationLabel(d) == NatToString(hours) + "小时" + NatToString(mins) + "分钟";
      ParseHoursAndMinutes(hours, mins);
    } else if hours > 0 {
      assert DurationLabel(d) == NatToString(hours) + "小时";
      NumberThenUnit(hours, "小时");
    } else {
      assert DurationLabel(d) == NatToString(mins) + "分钟";
      NumberThenUnit(mins, "分钟");
      assert "分钟" != "小时";
    }
  }

  /** The durations 30, 60, ..., 480 minutes, each with its label. */
  method DurationOptions() returns (options: seq<DurationOption>)
    ensures |options| == 16
    ensures forall i :: 0 <= i < |options| ==>
      options[i].value == 30 * (i + 1) && options[i].caption == DurationLabel(30 * (i + 1))
  {
    options := [];
    var d := 30;
    while d <= 480
      invariant 30 <= d <= 510 && 30 * (|options| + 1) == d
      invariant forall i :: 0 <= i < |options| ==>
        options[i].value == 30 * (i + 1) && options[i].caption == DurationLabel(30 * (i + 1))
    {
      var hours := d / 60;
      var mins := d % 60;
      var caption: string;
      if hours > 0 && mins > 0 {
        caption := NatToString(hours) + "小时" + NatToString(mins) + "分钟";
      } else if hours > 0 {
        caption := NatToString(hours) + "小时";
      } else {
        caption := NatToString(mins) + "分钟";
      }
      options := options + [DurationOption(d, caption)];
      d := d + 30;
    }
  }
}
