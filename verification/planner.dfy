/**
 * The week view: the records of the days on screen, kept in a map from date key
 * to day record, and the handlers that edit them (saving and deleting tasks,
 * writing the journal, dragging a task to a new start or a new length).
 *
 * Each handler is specified by a function from the old map to the new one; the
 * `WeekPlanner` class holds the map and applies them.
 */
module Planner {
  import opened Wrappers
  import opened Types
  import TaskModal

  /** The records of the days on screen, by date key. */
  type WeekMap = map<string, DayData>

  /** `weekDataMap[ds] || createEmptyDayData(ds)`: the record held for `ds`, or a new empty one. */
  function DayOf(m: WeekMap, ds: string): (d: DayData)
    ensures ds in m ==> d == m[ds]
    ensures ds !in m ==> d.date == ds && d.tasks == [] && IsMigrated(d)
    ensures WeekMigrated(m) ==> IsMigrated(d)
  {
    if ds in m then m[ds] else CreateEmptyDayData(ds)
  }

  /** Every record held has the three-item improvements (records are migrated as they are loaded). */
  predicate WeekMigrated(m: WeekMap) {
    forall ds :: ds in m ==> IsMigrated(m[ds])
  }

  /** Every task of every record held starts on the grid and ends by 24:00. */
  predicate WeekWellFormed(m: WeekMap) {
    forall ds :: ds in m ==> AllWellFormed(m[ds].tasks)
  }

  /** Two records with the same date and the same journal, whatever their tasks. */
  predicate SameJournal(a: DayData, b: DayData) {
    && a.date == b.date && a.goodThings == b.goodThings
    && a.improvements == b.improvements && a.improvement == b.improvement
  }

  // ---------------------------------------------------------------- task lists

  /** The position `find` stops at: the first task with id `id`, or `|tasks|` when there is none. */
  function FirstWithId(tasks: seq<Task>, id: string): (k: nat)
    ensures k <= |tasks|
    ensures forall j :: 0 <= j < k ==> tasks[j].id != id
    ensures k < |tasks| ==> tasks[k].id == id
    decreases |tasks|
  {
    if tasks == [] || tasks[0].id == id then 0 else 1 + FirstWithId(tasks[1..], id)
  }

  /** `tasks.find((t) => t.id === id)`: the first task with that id, if any. */
  function FindById(tasks: seq<Task>, id: string): (r: Option<Task>)
    ensures r.None? <==> forall j :: 0 <= j < |tasks| ==> tasks[j].id != id
    ensures r.Some? ==> r.value.id == id && r.value in tasks
    ensures r.Some? ==> exists i :: 0 <= i < |tasks| && tasks[i] == r.value && forall k :: 0 <= k < i ==> tasks[k].id != id
  {
    var k := FirstWithId(tasks, id);
    if k < |tasks| then Some(tasks[k]) else None
  }

  /** `tasks.filter((t) => t.id !== id)`. */
  function RemoveById(tasks: seq<Task>, id: string): (r: seq<Task>)
    ensures |r| <= |tasks|
    decreases |tasks|
  {
    if tasks == [] then []
    else (if tasks[0].id == id then [] else [tasks[0]]) + RemoveById(tasks[1..], id)
  }

  /** What stays is exactly the tasks whose id differs. */
  lemma {:induction false} RemoveByIdMembers(tasks: seq<Task>, id: string)
    ensures forall t :: t in RemoveById(tasks, id) ==> t in tasks && t.id != id
    ensures forall t :: t in tasks && t.id != id ==> t in RemoveById(tasks, id)
    decreases |tasks|
  {
    if tasks != [] {
      RemoveByIdMembers(tasks[1..], id);
      assert tasks == [tasks[0]] + tasks[1..];
    }
  }

  /** Filtering distributes over concatenation, so the tasks that stay keep their order. */
  lemma {:induction false} RemoveByIdAppend(a: seq<Task>, b: seq<Task>, id: string)
    ensures RemoveById(a + b, id) == RemoveById(a, id) + RemoveById(b, id)
    decreases |a|
  {
    if a == [] {
      assert a + b == b;
    } else {
      var t, rest := a[0], a[1..];
      assert a == [t] + rest;
      assert a + b == [t] + (rest + b);
      RemoveByIdCons(t, rest, id);
      RemoveByIdCons(t, rest + b, id);
      RemoveByIdAppend(rest, b, id);
    }
  }

  /** One step of the filter: the head stays unless it carries the id. */
  lemma RemoveByIdCons(t: Task, rest: seq<Task>, id: string)
    ensures RemoveById([t] + rest, id) == (if t.id == id then [] else [t]) + RemoveById(rest, id)
  {
    assert ([t] + rest)[0] == t;
    assert ([t] + rest)[1..] == rest;
  }

  /** Each task with another id stays as often as it was there; none with the id stays. */
  lemma {:induction false} RemoveByIdCount(tasks: seq<Task>, id: string, t: Task)
    ensures multiset(RemoveById(tasks, id))[t] == if t.id == id then 0 else multiset(tasks)[t]
    decreases |tasks|
  {
    if tasks != [] {
      RemoveByIdCount(tasks[1..], id, t);
      assert tasks == [tasks[0]] + tasks[1..];
    }
  }

  /** With no task carrying the id, nothing is removed. */
  lemma {:induction false} RemoveByIdAbsent(tasks: seq<Task>, id: string)
    requires forall j :: 0 <= j < |tasks| ==> tasks[j].id != id
    ensures RemoveById(tasks, id) == tasks
    decreases |tasks|
  {
    if tasks != [] {
      RemoveByIdAbsent(tasks[1..], id);
      assert tasks == [tasks[0]] + tasks[1..];
    }
  }

  /** What the `map` over a day's tasks does to a task with the matching id. */
  datatype Edit = Replace(task: Task) | SetStart(hour: int, minute: int) | SetDuration(duration: int)

  function Apply(t: Task, e: Edit): Task {
    match e
    case Replace(u) => u
    case SetStart(h, m) => t.(startHour := h, startMinute := m)
    case SetDuration(d) => t.(duration := d)
  }

  /** `tasks.map((t) => (t.id === id ? <edited t> : t))`. */
  function MapById(tasks: seq<Task>, id: string, e: Edit): (r: seq<Task>)
    ensures |r| == |tasks|
    ensures forall i :: 0 <= i < |tasks| ==>
      r[i] == if tasks[i].id == id then Apply(tasks[i], e) else tasks[i]
    decreases |tasks|
  {
    if tasks == [] then []
    else [if tasks[0].id == id then Apply(tasks[0], e) else tasks[0]] + MapById(tasks[1..], id, e)
  }

  // ---------------------------------------------------------------- saving and deleting

  /**
   * `handleSaveTask(task, targetDateStr)` with the modal's `editingTask` and
   * `modalDateStr`. An edit that changes the day removes the edited task from the
   * old day and appends it, under a new id, to the target day; an edit on the
   * same day replaces the tasks with the saved id; a new task is appended under a
   * new id. `freshId` stands for the `generateId()` of the call.
   */
  function SaveTaskOn(m: WeekMap, editing: Option<Task>, modalDateStr: string, task: Task,
                      targetDateStr: string, freshId: string): (r: WeekMap)
    ensures r.Keys == m.Keys + {targetDateStr} + (if editing.Some? then {modalDateStr} else {})
    ensures forall ds :: ds in m && ds != targetDateStr && (editing.None? || ds != modalDateStr) ==> r[ds] == m[ds]
    ensures SameJournal(r[targetDateStr], DayOf(m, targetDateStr))
  {
    if editing.Some? && targetDateStr != modalDateStr then
      var oldData := DayOf(m, modalDateStr);
      var m1 := m[modalDateStr := oldData.(tasks := RemoveById(oldData.tasks, editing.value.id))];
      var newDateData := DayOf(m, targetDateStr);
      m1[targetDateStr := newDateData.(tasks := newDateData.tasks + [task.(id := freshId)])]
    else
      var current := DayOf(m, targetDateStr);
      var newTasks :=
        if editing.Some? then MapById(current.tasks, task.id, Replace(task))
        else current.tasks + [task.(id := freshId)];
      m[targetDateStr := current.(tasks := newTasks)]
  }

  /** Records whose tasks all appear in a list of well-formed tasks are well formed. */
  lemma AllWellFormedSubset(a: seq<Task>, b: seq<Task>)
    requires AllWellFormed(a)
    requires forall t :: t in b ==> t in a
    ensures AllWellFormed(b)
  {
    forall i | 0 <= i < |b|
      ensures WellFormedTask(b[i])
    {
      assert b[i] in a;
    }
  }

  /** Saving keeps every record migrated. */
  lemma SaveKeepsMigrated(m: WeekMap, editing: Option<Task>, modalDateStr: string, task: Task,
                          targetDateStr: string, freshId: string)
    requires WeekMigrated(m)
    ensures WeekMigrated(SaveTaskOn(m, editing, modalDateStr, task, targetDateStr, freshId))
  {
    var r := SaveTaskOn(m, editing, modalDateStr, task, targetDateStr, freshId);
    forall ds | ds in r
      ensures IsMigrated(r[ds])
    {
      assert IsMigrated(DayOf(m, ds));
      assert r[ds].improvements == DayOf(m, ds).improvements;
    }
  }

  /** The tasks a save leaves on a day: each one was there before or is the saved task under some id. */
  lemma SavedTasksFrom(m: WeekMap, editing: Option<Task>, modalDateStr: string, task: Task,
                       targetDateStr: string, freshId: string, ds: string)
    requires ds in SaveTaskOn(m, editing, modalDateStr, task, targetDateStr, freshId)
    ensures var after := SaveTaskOn(m, editing, modalDateStr, task, targetDateStr, freshId)[ds].tasks;
      forall t :: t in after ==> t in DayOf(m, ds).tasks || t == task || t == task.(id := freshId)
  {
    var r := SaveTaskOn(m, editing, modalDateStr, task, targetDateStr, freshId);
    var before := DayOf(m, ds).tasks;
    if ds == targetDateStr {
      if editing.Some? && targetDateStr != modalDateStr {
        assert r[ds].tasks == before + [task.(id := freshId)];
      } else if editing.Some? {
        var after := MapById(before, task.id, Replace(task));
        assert r[ds].tasks == after;
        forall t | t in after
          ensures t in before || t == task
        {
          var i :| 0 <= i < |after| && after[i] == t;
          assert before[i] in before;
        }
      } else {
        assert r[ds].tasks == before + [task.(id := freshId)];
      }
    } else if editing.Some? && ds == modalDateStr {
      assert r[ds].tasks == RemoveById(before, editing.value.id);
      RemoveByIdMembers(before, editing.value.id);
    } else {
      assert r[ds] == m[ds];
    }
  }

  /** Saving a well-formed task keeps every task of the week well formed. */
  lemma SaveKeepsWellFormed(m: WeekMap, editing: Option<Task>, modalDateStr: string, task: Task,
                            targetDateStr: string, freshId: string)
    requires WeekWellFormed(m) && WellFormedTask(task)
    ensures WeekWellFormed(SaveTaskOn(m, editing, modalDateStr, task, targetDateStr, freshId))
  {
    var r := SaveTaskOn(m, editing, modalDateStr, task, targetDateStr, freshId);
    forall ds | ds in r
      ensures AllWellFormed(r[ds].tasks)
    {
      SavedTasksFrom(m, editing, modalDateStr, task, targetDateStr, freshId, ds);
      var before := DayOf(m, ds).tasks;
      assert AllWellFormed(before);
      assert WellFormedTask(task.(id := freshId));
      forall i | 0 <= i < |r[ds].tasks|
        ensures WellFormedTask(r[ds].tasks[i])
      {
        var t := r[ds].tasks[i];
        assert t in r[ds].tasks;
        if t in before {
          var j :| 0 <= j < |before| && before[j] == t;
        }
      }
    }
  }

  /** A new task goes to the end of the target day under the fresh id; the tasks before it stay as they were. */
  lemma SaveNewTaskAppends(m: WeekMap, modalDateStr: string, task: Task, targetDateStr: string, freshId: string)
    ensures var before := DayOf(m, targetDateStr).tasks;
      var after := SaveTaskOn(m, None, modalDateStr, task, targetDateStr, freshId)[targetDateStr].tasks;
      && |after| == |before| + 1
      && after[..|before|] == before
      && after[|before|] == task.(id := freshId)
  {
    var before := DayOf(m, targetDateStr).tasks;
    var after := SaveTaskOn(m, None, modalDateStr, task, targetDateStr, freshId)[targetDateStr].tasks;
    assert after == before + [task.(id := freshId)];
  }

  /** An edit on the same day replaces the tasks with the saved id in place and touches no other task. */
  lemma SaveEditSameDay(m: WeekMap, editing: Task, task: Task, ds: string, freshId: string)
    ensures var before := DayOf(m, ds).tasks;
      var after := SaveTaskOn(m, Some(editing), ds, task, ds, freshId)[ds].tasks;
      && |after| == |before|
      && (forall i :: 0 <= i < |before| && before[i].id == task.id ==> after[i] == task)
      && (forall i :: 0 <= i < |before| && before[i].id != task.id ==> after[i] == before[i])
  {
  }

  /**
   * An edit that changes the day leaves no task with the edited id on the old day
   * (the others stay, in order) and appends the saved task under the fresh id to
   * the target day.
   */
  lemma SaveEditMovesDay(m: WeekMap, editing: Task, modalDateStr: string, task: Task,
                         targetDateStr: string, freshId: string)
    requires targetDateStr != modalDateStr
    ensures var r := SaveTaskOn(m, Some(editing), modalDateStr, task, targetDateStr, freshId);
      && (forall t :: t in r[modalDateStr].tasks ==> t.id != editing.id)
      && r[modalDateStr].tasks == RemoveById(DayOf(m, modalDateStr).tasks, editing.id)
      && SameJournal(r[modalDateStr], DayOf(m, modalDateStr))
      && r[targetDateStr].tasks == DayOf(m, targetDateStr).tasks + [task.(id := freshId)]
  {
    RemoveByIdMembers(DayOf(m, modalDateStr).tasks, editing.id);
  }

  /** `handleDeleteTask` and `handleQuickDelete`: drop every task with the id from day `ds`. */
  function DeleteTaskOn(m: WeekMap, ds: string, id: string): (r: WeekMap)
    ensures r.Keys == m.Keys + {ds}
    ensures forall k :: k in m && k != ds ==> r[k] == m[k]
    ensures forall t :: t in r[ds].tasks ==> t.id != id && t in DayOf(m, ds).tasks
    ensures forall t :: t in DayOf(m, ds).tasks && t.id != id ==> t in r[ds].tasks
    ensures r[ds].tasks == RemoveById(DayOf(m, ds).tasks, id)
    ensures SameJournal(r[ds], DayOf(m, ds))
    ensures WeekMigrated(m) ==> WeekMigrated(r)
  {
    var current := DayOf(m, ds);
    RemoveByIdMembers(current.tasks, id);
    m[ds := current.(tasks := RemoveById(current.tasks, id))]
  }

  /** Deleting keeps every task well formed. */
  lemma DeleteKeepsWellFormed(m: WeekMap, ds: string, id: string)
    requires WeekWellFormed(m)
    ensures WeekWellFormed(DeleteTaskOn(m, ds, id))
  {
    var r := DeleteTaskOn(m, ds, id);
    assert AllWellFormed(DayOf(m, ds).tasks);
    AllWellFormedSubset(DayOf(m, ds).tasks, r[ds].tasks);
  }

  /** Deleting an id that is not on a day held leaves the week as it was. */
  lemma DeleteAbsentId(m: WeekMap, ds: string, id: string)
    requires ds in m
    requires forall t :: t in m[ds].tasks ==> t.id != id
    ensures DeleteTaskOn(m, ds, id) == m
  {
    RemoveByIdAbsent(m[ds].tasks, id);
    assert m[ds].(tasks := m[ds].tasks) == m[ds];
  }

  // ---------------------------------------------------------------- journal

  datatype GoodField = Thing1 | Thing2 | Thing3

  datatype ImprovementField = Item1 | Item2 | Item3

  function GoodThing(g: GoodThings, f: GoodField): string {
    match f
    case Thing1 => g.thing1
    case Thing2 => g.thing2
    case Thing3 => g.thing3
  }

  function ImprovementItem(i: Improvements, f: ImprovementField): string {
    match f
    case Item1 => i.item1
    case Item2 => i.item2
    case Item3 => i.item3
  }

  /** `updateGoodThing(field, value)` on day `ds`: that one entry changes, nothing else. */
  function UpdateGoodThingOn(m: WeekMap, ds: string, field: GoodField, value: string): (r: WeekMap)
    ensures r.Keys == m.Keys + {ds}
    ensures forall k :: k in m && k != ds ==> r[k] == m[k]
    ensures GoodThing(r[ds].goodThings, field) == value
    ensures forall f :: f != field ==> GoodThing(r[ds].goodThings, f) == GoodThing(DayOf(m, ds).goodThings, f)
    ensures var d := DayOf(m, ds);
      && r[ds].date == d.date && r[ds].tasks == d.tasks
      && r[ds].improvements == d.improvements && r[ds].improvement == d.improvement
    ensures WeekMigrated(m) ==> WeekMigrated(r)
  {
    var current := DayOf(m, ds);
    var g := current.goodThings;
    var newGood := match field
      case Thing1 => g.(thing1 := value)
      case Thing2 => g.(thing2 := value)
      case Thing3 => g.(thing3 := value);
    m[ds := current.(goodThings := newGood)]
  }

  /**
   * `updateImprovement(field, value)` on day `ds`: that one entry changes, nothing
   * else. The record is a migrated one, as every record the planner holds is.
   */
  function UpdateImprovementOn(m: WeekMap, ds: string, field: ImprovementField, value: string): (r: WeekMap)
    requires IsMigrated(DayOf(m, ds))
    ensures r.Keys == m.Keys + {ds}
    ensures forall k :: k in m && k != ds ==> r[k] == m[k]
    ensures IsMigrated(r[ds]) && ImprovementItem(r[ds].improvements.value, field) == value
    ensures forall f :: f != field ==>
      ImprovementItem(r[ds].improvements.value, f) == ImprovementItem(DayOf(m, ds).improvements.value, f)
    ensures var d := DayOf(m, ds);
      && r[ds].date == d.date && r[ds].tasks == d.tasks
      && r[ds].goodThings == d.goodThings && r[ds].improvement == d.improvement
    ensures WeekMigrated(m) ==> WeekMigrated(r)
  {
    var current := DayOf(m, ds);
    var i := current.improvements.value;
    var newItems := match field
      case Item1 => i.(item1 := value)
      case Item2 => i.(item2 := value)
      case Item3 => i.(item3 := value);
    m[ds := current.(improvements := Some(newItems))]
  }

  // ---------------------------------------------------------------- dragging

  function Max(a: int, b: int): int { if a < b then b else a }

  function Min(a: int, b: int): int { if a < b then a else b }

  /** The slot a task starts in: two per hour, the second from minute 30. */
  function TaskStartSlot(t: Task): (s: int)
    ensures (t.startMinute == 0 || t.startMinute == 30) ==> 30 * s == 60 * t.startHour + t.startMinute
    ensures (t.startMinute == 0 || t.startMinute == 30) ==> s == MinutesToSlot(t.startHour, t.startMinute)
  {
    t.startHour * 2 + (if t.startMinute == 30 then 1 else 0)
  }

  /**
   * The start slot after dragging the task `slotDelta` slots: the original start
   * moved by the delta, held between slot 0 and the last slot from which the
   * task still fits in the day.
   */
  function MovedSlot(original: Task, slotDelta: int): (s: int)
    requires original.duration % SLOT_MINUTES == 0
    ensures 0 <= s
    ensures original.duration <= MINUTES_PER_DAY ==> s * SLOT_MINUTES + original.duration <= MINUTES_PER_DAY
    ensures 0 <= TaskStartSlot(original) + slotDelta <= TOTAL_SLOTS - original.duration / SLOT_MINUTES ==>
      s == TaskStartSlot(original) + slotDelta
    ensures TaskStartSlot(original) + slotDelta < 0 ==> s == 0
    ensures (original.duration <= MINUTES_PER_DAY
      && TaskStartSlot(original) + slotDelta > TOTAL_SLOTS - original.duration / SLOT_MINUTES) ==>
      s == TOTAL_SLOTS - original.duration / SLOT_MINUTES
  {
    var taskSlots := original.duration / SLOT_MINUTES;
    Max(0, Min(TOTAL_SLOTS - taskSlots, TaskStartSlot(original) + slotDelta))
  }

  /**
   * The number of slots after dragging the bottom edge `slotDelta` slots: at least
   * one, and no more than are left in the day after the start slot.
   */
  function ResizedSlots(original: Task, slotDelta: int): (n: int)
    requires original.duration % SLOT_MINUTES == 0
    ensures TaskStartSlot(original) < TOTAL_SLOTS ==> 1 <= n && TaskStartSlot(original) + n <= TOTAL_SLOTS
    ensures n <= Max(1, original.duration / SLOT_MINUTES + slotDelta)
    ensures TaskStartSlot(original) + Max(1, original.duration / SLOT_MINUTES + slotDelta) <= TOTAL_SLOTS ==>
      n == Max(1, original.duration / SLOT_MINUTES + slotDelta)
    ensures TaskStartSlot(original) + Max(1, original.duration / SLOT_MINUTES + slotDelta) > TOTAL_SLOTS ==>
      n == TOTAL_SLOTS - TaskStartSlot(original)
  {
    var newSlots := Max(1, original.duration / SLOT_MINUTES + slotDelta);
    var startSlot := TaskStartSlot(original);
    if startSlot + newSlots > TOTAL_SLOTS then TOTAL_SLOTS - startSlot else newSlots
  }

  /** The start time a move drag lands on. */
  function MovedStart(original: Task, slotDelta: int): (c: Clock)
    requires original.duration % SLOT_MINUTES == 0
    ensures c.minute == 0 || c.minute == 30
    ensures original.duration <= MINUTES_PER_DAY ==>
      0 <= 60 * c.hour + c.minute && 60 * c.hour + c.minute + original.duration <= MINUTES_PER_DAY
  {
    SlotToTime(MovedSlot(original, slotDelta))
  }

  /**
   * One mouse move of a move drag of task `id` on day `ds`, begun on `original`.
   * Nothing changes when the day is not held, the task is gone, or the task
   * already starts at the new time; otherwise every task with the id gets the
   * new start.
   */
  function MoveTaskOn(m: WeekMap, ds: string, id: string, original: Task, slotDelta: int): (r: WeekMap)
    requires original.duration % SLOT_MINUTES == 0
    ensures r.Keys == m.Keys
    ensures forall k :: k in m && k != ds ==> r[k] == m[k]
    ensures ds in m ==> SameJournal(r[ds], m[ds])
    ensures WeekMigrated(m) ==> WeekMigrated(r)
  {
    if ds !in m then m
    else
      var day := m[ds];
      match FindById(day.tasks, id)
      case None => m
      case Some(current) =>
        var c := MovedStart(original, slotDelta);
        if current.startHour != c.hour || current.startMinute != c.minute then
          m[ds := day.(tasks := MapById(day.tasks, id, SetStart(c.hour, c.minute)))]
        else
          m
  }

  /**
   * One mouse move of a resize drag of task `id` on day `ds`, begun on `original`.
   * Nothing changes when the day is not held, the task is gone, or the task
   * already has the new length; otherwise every task with the id gets it.
   */
  function ResizeTaskOn(m: WeekMap, ds: string, id: string, original: Task, slotDelta: int): (r: WeekMap)
    requires original.duration % SLOT_MINUTES == 0
    ensures r.Keys == m.Keys
    ensures forall k :: k in m && k != ds ==> r[k] == m[k]
    ensures ds in m ==> SameJournal(r[ds], m[ds])
    ensures WeekMigrated(m) ==> WeekMigrated(r)
  {
    if ds !in m then m
    else
      var day := m[ds];
      match FindById(day.tasks, id)
      case None => m
      case Some(current) =>
        var newDuration := ResizedSlots(original, slotDelta) * SLOT_MINUTES;
        if current.duration != newDuration then
          m[ds := day.(tasks := MapById(day.tasks, id, SetDuration(newDuration)))]
        else
          m
  }

  /**
   * A move changes nothing but the start of the tasks with the id: each task is
   * either as it was or that task with the new start, and the task the handler
   * finds next time is the one it found, at the new start.
   */
  lemma MoveChangesOnlyStart(m: WeekMap, ds: string, id: string, original: Task, slotDelta: int)
    requires original.duration % SLOT_MINUTES == 0
    requires ds in m
    ensures var r := MoveTaskOn(m, ds, id, original, slotDelta);
      var c := MovedStart(original, slotDelta);
      && |r[ds].tasks| == |m[ds].tasks|
      && (forall i :: 0 <= i < |m[ds].tasks| ==>
        || r[ds].tasks[i] == m[ds].tasks[i]
        || (m[ds].tasks[i].id == id && r[ds].tasks[i] == m[ds].tasks[i].(startHour := c.hour, startMinute := c.minute)))
      && (FindById(m[ds].tasks, id).Some? ==>
        FindById(r[ds].tasks, id) == Some(FindById(m[ds].tasks, id).value.(startHour := c.hour, startMinute := c.minute)))
  {
    var c := MovedStart(original, slotDelta);
    var found := FindById(m[ds].tasks, id);
    if found.Some? && (found.value.startHour != c.hour || found.value.startMinute != c.minute) {
      MovedMapKeepsFirst(m[ds].tasks, id, SetStart(c.hour, c.minute));
    }
  }

  /**
   * A resize changes nothing but the length of the tasks with the id: each task
   * is either as it was or that task with the new length, and the task the
   * handler finds next time is the one it found, with the new length.
   */
  lemma ResizeChangesOnlyLength(m: WeekMap, ds: string, id: string, original: Task, slotDelta: int)
    requires original.duration % SLOT_MINUTES == 0
    requires ds in m
    ensures var r := ResizeTaskOn(m, ds, id, original, slotDelta);
      var d := ResizedSlots(original, slotDelta) * SLOT_MINUTES;
      && |r[ds].tasks| == |m[ds].tasks|
      && (forall i :: 0 <= i < |m[ds].tasks| ==>
        || r[ds].tasks[i] == m[ds].tasks[i]
        || (m[ds].tasks[i].id == id && r[ds].tasks[i] == m[ds].tasks[i].(duration := d)))
      && (FindById(m[ds].tasks, id).Some? ==>
        FindById(r[ds].tasks, id) == Some(FindById(m[ds].tasks, id).value.(duration := d)))
  {
    var d := ResizedSlots(original, slotDelta) * SLOT_MINUTES;
    var found := FindById(m[ds].tasks, id);
    if found.Some? && found.value.duration != d {
      MovedMapKeepsFirst(m[ds].tasks, id, SetDuration(d));
    }
  }

  /** Editing the tasks with an id edits the first of them, which is still the first with that id. */
  lemma MovedMapKeepsFirst(tasks: seq<Task>, id: string, e: Edit)
    requires e.SetStart? || e.SetDuration?
    requires FindById(tasks, id).Some?
    ensures FindById(MapById(tasks, id, e), id) == Some(Apply(FindById(tasks, id).value, e))
  {
    var r := MapById(tasks, id, e);
    var k := FirstWithId(tasks, id);
    assert forall j :: 0 <= j < |tasks| ==> r[j].id == tasks[j].id;
    FirstWithIdSameIds(tasks, r, id);
  }

  /** Lists with the same ids in the same places have their first match at the same place. */
  lemma {:induction false} FirstWithIdSameIds(a: seq<Task>, b: seq<Task>, id: string)
    requires |a| == |b| && forall j :: 0 <= j < |a| ==> a[j].id == b[j].id
    ensures FirstWithId(a, id) == FirstWithId(b, id)
    decreases |a|
  {
    if a != [] && a[0].id != id {
      FirstWithIdSameIds(a[1..], b[1..], id);
    }
  }

  /** A move that finds the task already at the new start changes nothing. */
  lemma MoveToSameStartIsNoOp(m: WeekMap, ds: string, id: string, original: Task, slotDelta: int)
    requires original.duration % SLOT_MINUTES == 0
    requires ds in m && FindById(m[ds].tasks, id).Some?
    requires FindById(m[ds].tasks, id).value.startHour == MovedStart(original, slotDelta).hour
    requires FindById(m[ds].tasks, id).value.startMinute == MovedStart(original, slotDelta).minute
    ensures MoveTaskOn(m, ds, id, original, slotDelta) == m
  {
  }

  /** A resize that finds the task already at the new length changes nothing. */
  lemma ResizeToSameLengthIsNoOp(m: WeekMap, ds: string, id: string, original: Task, slotDelta: int)
    requires original.duration % SLOT_MINUTES == 0
    requires ds in m && FindById(m[ds].tasks, id).Some?
    requires FindById(m[ds].tasks, id).value.duration == ResizedSlots(original, slotDelta) * SLOT_MINUTES
    ensures ResizeTaskOn(m, ds, id, original, slotDelta) == m
  {
  }

  /** A well-formed task moved to the start a drag of the same length lands on is still well formed. */
  lemma MovedTaskWellFormed(t: Task, original: Task, slotDelta: int)
    requires original.duration % SLOT_MINUTES == 0 && original.duration <= MINUTES_PER_DAY
    requires WellFormedTask(t) && t.duration == original.duration
    ensures var c := MovedStart(original, slotDelta);
      WellFormedTask(t.(startHour := c.hour, startMinute := c.minute))
  {
    var s := MovedSlot(original, slotDelta);
    var c := MovedStart(original, slotDelta);
    assert c.hour * 60 + c.minute == s * SLOT_MINUTES;
  }

  /** A well-formed task given the length a resize drag from its own start slot computes is still well formed. */
  lemma ResizedTaskWellFormed(t: Task, original: Task, slotDelta: int)
    requires WellFormedTask(original)
    requires WellFormedTask(t) && TaskStartSlot(t) == TaskStartSlot(original)
    ensures WellFormedTask(t.(duration := ResizedSlots(original, slotDelta) * SLOT_MINUTES))
  {
    var n := ResizedSlots(original, slotDelta);
    assert StartMinutes(t) == TaskStartSlot(t) * SLOT_MINUTES;
    assert (n * SLOT_MINUTES) % SLOT_MINUTES == 0;
  }

  /**
   * Moving a well-formed task whose length is still the one the drag began with
   * keeps every task on the grid and inside the day.
   */
  lemma MoveKeepsWellFormed(m: WeekMap, ds: string, id: string, original: Task, slotDelta: int)
    requires original.duration % SLOT_MINUTES == 0 && original.duration <= MINUTES_PER_DAY
    requires WeekWellFormed(m)
    requires ds in m ==> forall t :: t in m[ds].tasks && t.id == id ==> t.duration == original.duration
    ensures WeekWellFormed(MoveTaskOn(m, ds, id, original, slotDelta))
  {
    var r := MoveTaskOn(m, ds, id, original, slotDelta);
    if ds in m {
      MoveChangesOnlyStart(m, ds, id, original, slotDelta);
      forall i | 0 <= i < |r[ds].tasks|
        ensures WellFormedTask(r[ds].tasks[i])
      {
        var t := m[ds].tasks[i];
        assert t in m[ds].tasks && WellFormedTask(t);
        if t.id == id {
          MovedTaskWellFormed(t, original, slotDelta);
        }
      }
      assert AllWellFormed(r[ds].tasks);
    }
  }

  /** Resizing a task whose start is the one the drag began with keeps every task on the grid and inside the day. */
  lemma ResizeKeepsWellFormed(m: WeekMap, ds: string, id: string, original: Task, slotDelta: int)
    requires WellFormedTask(original)
    requires WeekWellFormed(m)
    requires ds in m ==> forall t :: t in m[ds].tasks && t.id == id ==> TaskStartSlot(t) == TaskStartSlot(original)
    ensures WeekWellFormed(ResizeTaskOn(m, ds, id, original, slotDelta))
  {
    var r := ResizeTaskOn(m, ds, id, original, slotDelta);
    if ds in m {
      ResizeChangesOnlyLength(m, ds, id, original, slotDelta);
      forall i | 0 <= i < |r[ds].tasks|
        ensures WellFormedTask(r[ds].tasks[i])
      {
        var t := m[ds].tasks[i];
        assert t in m[ds].tasks && WellFormedTask(t);
        if t.id == id {
          ResizedTaskWellFormed(t, original, slotDelta);
        }
      }
      assert AllWellFormed(r[ds].tasks);
    }
  }

  // ---------------------------------------------------------------- loading

  /** `loadDayData(ds)`: the stored record brought to the current form, or a new empty one. */
  function LoadedDay(ds: string, stored: map<string, DayData>): (d: DayData)
    ensures IsMigrated(d)
    ensures ds !in stored ==> d == CreateEmptyDayData(ds)
    ensures ds in stored ==> d == MigrateDayData(stored[ds])
    ensures ds in stored ==>
      && d.date == stored[ds].date && d.tasks == stored[ds].tasks && d.goodThings == stored[ds].goodThings
      && d.improvement == stored[ds].improvement
      && (IsMigrated(stored[ds]) ==> d.improvements == stored[ds].improvements)
  {
    if ds in stored then MigrateDayData(stored[ds]) else CreateEmptyDayData(ds)
  }

  // ---------------------------------------------------------------- the view

  /** `formatDateStr` of each day, in order. */
  function DayKeys(weekDays: seq<int>): (keys: seq<string>)
    ensures |keys| == |weekDays|
    ensures forall i :: 0 <= i < |weekDays| ==> keys[i] == DayKey(weekDays[i])
  {
    seq(|weekDays|, i requires 0 <= i < |weekDays| => DayKey(weekDays[i]))
  }

  /** The records `loadAll` collects under the given keys, in order; `stored` stands for storage. */
  function WeekRecords(keys: seq<string>, stored: map<string, DayData>): WeekMap
    decreases |keys|
  {
    if keys == [] then map[]
    else
      var ds := keys[|keys| - 1];
      WeekRecords(keys[..|keys| - 1], stored)[ds := LoadedDay(ds, stored)]
  }

  /** One more key adds its record. */
  lemma WeekRecordsStep(keys: seq<string>, i: nat, stored: map<string, DayData>)
    requires i < |keys|
    ensures WeekRecords(keys[..i + 1], stored) == WeekRecords(keys[..i], stored)[keys[i] := LoadedDay(keys[i], stored)]
  {
    assert keys[..i + 1][..i] == keys[..i];
  }

  lemma KeysOfUpdate<K, V>(m: map<K, V>, k: K, v: V)
    ensures m[k := v].Keys == m.Keys + {k}
  {
  }

  lemma ElementsSnoc<T>(xs: seq<T>, x: T)
    ensures (set y | y in xs + [x]) == (set y | y in xs) + {x}
  {
  }

  /** The collected map holds exactly the given keys. */
  lemma {:induction false} WeekRecordsKeys(keys: seq<string>, stored: map<string, DayData>)
    ensures WeekRecords(keys, stored).Keys == set ds | ds in keys
    decreases |keys|
  {
    if keys != [] {
      var init, last := keys[..|keys| - 1], keys[|keys| - 1];
      assert keys == init + [last];
      WeekRecordsKeys(init, stored);
      KeysOfUpdate(WeekRecords(init, stored), last, LoadedDay(last, stored));
      ElementsSnoc(init, last);
    }
  }

  /** Every record in the collected map is the one loaded for its key. */
  lemma {:induction false} WeekRecordsLoaded(keys: seq<string>, stored: map<string, DayData>)
    ensures forall ds :: ds in WeekRecords(keys, stored) ==> WeekRecords(keys, stored)[ds] == LoadedDay(ds, stored)
    decreases |keys|
  {
    if keys != [] {
      WeekRecordsLoaded(keys[..|keys| - 1], stored);
    }
  }

  /** The `loadAll` loop: one record per day of the week, under the day's key, loaded from storage. */
  method LoadedWeek(weekDays: seq<int>, stored: map<string, DayData>) returns (loaded: WeekMap)
    ensures loaded == WeekRecords(DayKeys(weekDays), stored)
    ensures loaded.Keys == set ds | ds in DayKeys(weekDays)
    ensures forall ds :: ds in loaded ==> loaded[ds] == LoadedDay(ds, stored)
    ensures WeekMigrated(loaded)
  {
    ghost var keys := DayKeys(weekDays);
    loaded := map[];
    for i := 0 to |weekDays|
      invariant loaded == WeekRecords(keys[..i], stored)
    {
      var ds := DayKey(weekDays[i]);
      WeekRecordsStep(keys, i, stored);
      loaded := loaded[ds := LoadedDay(ds, stored)];
    }
    assert keys[..|keys|] == keys;
    WeekRecordsKeys(keys, stored);
    WeekRecordsLoaded(keys, stored);
  }

  /** The `loadAll` effect on the map held: an empty list of days keeps it, any other week is loaded afresh. */
  method ReloadedWeek(weekDays: seq<int>, stored: map<string, DayData>, held: WeekMap) returns (r: WeekMap)
    requires WeekMigrated(held)
    ensures weekDays == [] ==> r == held
    ensures weekDays != [] ==> r.Keys == set ds | ds in DayKeys(weekDays)
    ensures weekDays != [] ==> forall ds :: ds in r ==> r[ds] == LoadedDay(ds, stored)
    ensures WeekMigrated(r)
  {
    if weekDays == [] {
      r := held;
    } else {
      r := LoadedWeek(weekDays, stored);
    }
  }

  /** The planner's state: the week's records and the task form. */
  class WeekPlanner {
    var weekData: WeekMap
    var selectedDateStr: string
    var showModal: bool
    var editingTask: Option<Task>
    var modalDefaults: Option<TaskModal.Defaults>
    var modalDateStr: string

    ghost predicate Valid()
      reads this
    {
      WeekMigrated(weekData)
    }

    /** The view opens on day `today` with nothing loaded and the form closed. */
    constructor (today: string)
      ensures Valid()
      ensures weekData == map[] && selectedDateStr == today
      ensures !showModal && editingTask.None? && modalDefaults.None? && modalDateStr == ""
    {
      weekData := map[];
      selectedDateStr := today;
      showModal := false;
      editingTask := None;
      modalDefaults := None;
      modalDateStr := "";
    }

    /** The record of the selected day, a new empty one when none is held. */
    function SelectedDay(): (d: DayData)
      reads this
      ensures selectedDateStr in weekData ==> d == weekData[selectedDateStr]
      ensures selectedDateStr !in weekData ==> d == CreateEmptyDayData(selectedDateStr)
      ensures selectedDateStr !in weekData ==> d.tasks == [] && d.date == selectedDateStr
    {
      DayOf(weekData, selectedDateStr)
    }

    /** Loading the days of the week (the `loadAll` effect), as `ReloadedWeek` computes it. */
    method LoadWeek(weekDays: seq<int>, stored: map<string, DayData>)
      requires Valid()
      modifies this
      ensures Valid()
      ensures weekDays == [] ==> weekData == old(weekData)
      ensures weekDays != [] ==> weekData.Keys == set ds | ds in DayKeys(weekDays)
      ensures weekDays != [] ==> forall ds :: ds in weekData ==> weekData[ds] == LoadedDay(ds, stored)
      ensures selectedDateStr == old(selectedDateStr) && showModal == old(showModal)
      ensures editingTask == old(editingTask) && modalDefaults == old(modalDefaults)
      ensures modalDateStr == old(modalDateStr)
    {
      weekData := ReloadedWeek(weekDays, stored, weekData);
    }

    /** `handleCellClick(dateStr, slot)`: a new task proposed at the slot's start time on that day. */
    method OpenCell(dateStr: string, slot: nat)
      requires Valid()
      modifies this
      ensures Valid()
      ensures showModal && editingTask.None? && modalDateStr == dateStr
      ensures modalDefaults.Some? && modalDefaults.value.dateStr == dateStr
      ensures MinutesToSlot(modalDefaults.value.startHour, modalDefaults.value.startMinute) == slot
      ensures modalDefaults.value.startMinute == 0 || modalDefaults.value.startMinute == 30
      ensures weekData == old(weekData) && selectedDateStr == old(selectedDateStr)
    {
      var c := SlotToTime(slot);
      editingTask := None;
      modalDefaults := Some(TaskModal.Defaults(c.hour, c.minute, dateStr));
      modalDateStr := dateStr;
      showModal := true;
    }

    /** `handleTaskClick(dateStr, task)`: the form opens on that task of that day. */
    method OpenTask(dateStr: string, task: Task)
      requires Valid()
      modifies this
      ensures Valid()
      ensures showModal && editingTask == Some(task) && modalDefaults.None? && modalDateStr == dateStr
      ensures weekData == old(weekData) && selectedDateStr == old(selectedDateStr)
    {
      editingTask := Some(task);
      modalDefaults := None;
      modalDateStr := dateStr;
      showModal := true;
    }

    /** `handleAddTask`: a new task proposed at 09:00 on the selected day. */
    method OpenNew()
      requires Valid()
      modifies this
      ensures Valid()
      ensures showModal && editingTask.None? && modalDateStr == selectedDateStr
      ensures modalDefaults == Some(TaskModal.Defaults(9, 0, selectedDateStr))
      ensures weekData == old(weekData) && selectedDateStr == old(selectedDateStr)
    {
      editingTask := None;
      modalDefaults := Some(TaskModal.Defaults(9, 0, selectedDateStr));
      modalDateStr := selectedDateStr;
      showModal := true;
    }

    /** The form's close button: the form closes and forgets the task it was editing. */
    method CloseModal()
      requires Valid()
      modifies this`showModal, this`editingTask
      ensures Valid()
      ensures !showModal && editingTask.None?
    {
      showModal := false;
      editingTask := None;
    }

    /** `handleSaveTask(task, targetDateStr)`: the week as `SaveTaskOn` gives it; the form closes. */
    method SaveTask(task: Task, targetDateStr: string, freshId: string)
      requires Valid()
      modifies this
      ensures Valid()
      ensures weekData == SaveTaskOn(old(weekData), old(editingTask), old(modalDateStr), task, targetDateStr, freshId)
      ensures !showModal && editingTask.None?
      ensures selectedDateStr == old(selectedDateStr) && modalDateStr == old(modalDateStr)
      ensures modalDefaults == old(modalDefaults)
    {
      SaveKeepsMigrated(weekData, editingTask, modalDateStr, task, targetDateStr, freshId);
      weekData := SaveTaskOn(weekData, editingTask, modalDateStr, task, targetDateStr, freshId);
      showModal := false;
      editingTask := None;
    }

    /** `handleDeleteTask(taskId)`: the task leaves the form's day; the form closes. */
    method DeleteTask(taskId: string)
      requires Valid()
      modifies this
      ensures Valid()
      ensures weekData == DeleteTaskOn(old(weekData), old(modalDateStr), taskId)
      ensures !showModal && editingTask.None?
      ensures selectedDateStr == old(selectedDateStr) && modalDateStr == old(modalDateStr)
      ensures modalDefaults == old(modalDefaults)
    {
      weekData := DeleteTaskOn(weekData, modalDateStr, taskId);
      showModal := false;
      editingTask := None;
    }

    /** `handleQuickDelete(dateStr, taskId)`: the task leaves that day; the form is left as it is. */
    method QuickDelete(dateStr: string, taskId: string)
      requires Valid()
      modifies this`weekData
      ensures Valid()
      ensures weekData == DeleteTaskOn(old(weekData), dateStr, taskId)
    {
      weekData := DeleteTaskOn(weekData, dateStr, taskId);
    }

    /** `updateGoodThing(field, value)` on the selected day. */
    method UpdateGoodThing(field: GoodField, value: string)
      requires Valid()
      modifies this`weekData
      ensures Valid()
      ensures weekData == UpdateGoodThingOn(old(weekData), selectedDateStr, field, value)
    {
      weekData := UpdateGoodThingOn(weekData, selectedDateStr, field, value);
    }

    /** `updateImprovement(field, value)` on the selected day. */
    method UpdateImprovement(field: ImprovementField, value: string)
      requires Valid()
      modifies this`weekData
      ensures Valid()
      ensures weekData == UpdateImprovementOn(old(weekData), selectedDateStr, field, value)
    {
      weekData := UpdateImprovementOn(weekData, selectedDateStr, field, value);
    }

    /**
     * `handleDragStart`: the drag begins only on a day that is held and a task
     * that is on it, and remembers the task as it was.
     */
    method BeginDrag(dateStr: string, taskId: string) returns (original: Option<Task>)
      ensures original.None? <==>
        dateStr !in weekData || forall t :: t in weekData[dateStr].tasks ==> t.id != taskId
      ensures original.Some? ==> original.value.id == taskId && original.value in weekData[dateStr].tasks
      ensures dateStr in weekData ==> original == FindById(weekData[dateStr].tasks, taskId)
    {
      if dateStr !in weekData {
        return None;
      }
      original := FindById(weekData[dateStr].tasks, taskId);
    }

    /** One mouse move of a move drag, step by step as the handler computes it. */
    method DragMove(dateStr: string, taskId: string, original: Task, slotDelta: int)
      requires Valid() && original.duration % SLOT_MINUTES == 0
      modifies this`weekData
      ensures Valid()
      ensures weekData == MoveTaskOn(old(weekData), dateStr, taskId, original, slotDelta)
    {
      if dateStr !in weekData {
        return;
      }
      var day := weekData[dateStr];
      var current := FindById(day.tasks, taskId);
      if current.None? {
        return;
      }
      var newSlot := TaskStartSlot(original) + slotDelta;
      var taskSlots := original.duration / SLOT_MINUTES;
      newSlot := Max(0, Min(TOTAL_SLOTS - taskSlots, newSlot));
      assert newSlot == MovedSlot(original, slotDelta);
      var c := SlotToTime(newSlot);
      assert c == MovedStart(original, slotDelta);
      if current.value.startHour != c.hour || current.value.startMinute != c.minute {
        weekData := weekData[dateStr := day.(tasks := MapById(day.tasks, taskId, SetStart(c.hour, c.minute)))];
      }
    }

    /** One mouse move of a resize drag, step by step as the handler computes it. */
    method DragResize(dateStr: string, taskId: string, original: Task, slotDelta: int)
      requires Valid() && original.duration % SLOT_MINUTES == 0
      modifies this`weekData
      ensures Valid()
      ensures weekData == ResizeTaskOn(old(weekData), dateStr, taskId, original, slotDelta)
    {
      if dateStr !in weekData {
        return;
      }
      var day := weekData[dateStr];
      var current := FindById(day.tasks, taskId);
      if current.None? {
        return;
      }
      var newSlots := original.duration / SLOT_MINUTES + slotDelta;
      newSlots := Max(1, newSlots);
      var startSlot := TaskStartSlot(original);
      if startSlot + newSlots > TOTAL_SLOTS {
        newSlots := TOTAL_SLOTS - startSlot;
      }
      assert newSlots == ResizedSlots(original, slotDelta);
      var newDuration := newSlots * SLOT_MINUTES;
      if current.value.duration != newDuration {
        weekData := weekData[dateStr := day.(tasks := MapById(day.tasks, taskId, SetDuration(newDuration)))];
      }
    }
  }
}
