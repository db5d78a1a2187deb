/**
 * The partial update of the PATCH `/api/tasks/:id` handler: the SET list it
 * builds from the request body, and the `completed_at` rule.
 */
module TaskPatch {
  import opened Wrappers
  import opened Calendar
  import opened Recurrence

  /** One `column = ?` pair of the SET list the handler builds. */
  datatype Assignment =
    | SetTitle(title: string)
    | SetCompleted(completed: bool)
    | SetCompletedAt(at: Option<string>)
    | SetIsMainTask(isMainTask: bool)
    | SetSubtasks(subtasks: string)
    | SetKind(kind: Kind)
    | SetInterval(interval: nat)
    | SetDetails(details: string)
    | SetEnd(end: Day)

  /**
   * The request body: each field is `None` when it is absent or null. `subtasks`
   * and `details` are the JSON texts the handler stores.
   */
  datatype PatchBody = PatchBody(
    title: Option<string>,
    completed: Option<bool>,
    isMainTask: Option<bool>,
    subtasks: Option<string>,
    kind: Option<Kind>,
    interval: Option<nat>,
    details: Option<string>,
    endRecurrence: Option<Day>)

  predicate NoFieldsGiven(b: PatchBody) {
    b.title.None? && b.completed.None? && b.isMainTask.None? && b.subtasks.None? &&
    b.kind.None? && b.interval.None? && b.details.None? && b.endRecurrence.None?
  }

  /** The position of an assignment's column in the handler's order of checks. */
  function Column(a: Assignment): nat {
    match a
    case SetTitle(_) => 0
    case SetCompleted(_) => 1
    case SetCompletedAt(_) => 2
    case SetIsMainTask(_) => 3
    case SetSubtasks(_) => 4
    case SetKind(_) => 5
    case SetInterval(_) => 6
    case SetDetails(_) => 7
    case SetEnd(_) => 8
  }

  function Apply(t: TaskRow, a: Assignment): TaskRow {
    match a
    case SetTitle(x) => t.(title := x)
    case SetCompleted(x) => t.(completed := x)
    case SetCompletedAt(x) => t.(completedAt := x)
    case SetIsMainTask(x) => t.(isMainTask := x)
    case SetSubtasks(x) => t.(subtasks := x)
    case SetKind(x) => t.(kind := x)
    case SetInterval(x) => t.(interval := x)
    case SetDetails(x) => t.(details := x)
    case SetEnd(x) => t.(endRecurrence := Some(x))
  }

  /**
   * The `updateFields` array as the pushes that built it: `Empty`, or an
   * earlier list with one more `column = ?` pushed at its end.
   */
  datatype SetList = Empty | Push(before: SetList, last: Assignment)

  /** The UPDATE statement: the assignments of the SET list applied to the row in turn. */
  function ApplyAll(t: TaskRow, fields: SetList): TaskRow {
    match fields
    case Empty => t
    case Push(before, a) => Apply(ApplyAll(t, before), a)
  }

  /** Each column at most once, in the handler's order of checks. */
  predicate Ordered(fields: SetList) {
    match fields
    case Empty => true
    case Push(before, a) => Ordered(before) && (before.Empty? || Column(before.last) < Column(a))
  }

  /** The last column of the list, if any, comes before column number `c`. */
  predicate Before(fields: SetList, c: nat) {
    fields.Empty? || Column(fields.last) < c
  }

  // ---------------------------------------------------------------------------
  // The rule

  /**
   * The completion timestamp after a PATCH: stamped with `now` on a
   * not-completed to completed change, cleared on a completed to not-completed
   * change, otherwise kept.
   */
  function CompletedAtAfter(prev: TaskRow, completed: Option<bool>, now: string): Option<string> {
    if completed == Some(true) && !prev.completed then Some(now)
    else if completed == Some(false) && prev.completed then None
    else prev.completedAt
  }

  /** The row a PATCH with body `b` at time `now` leaves: given fields replaced, the rest kept. */
  function Patched(prev: TaskRow, b: PatchBody, now: string): TaskRow {
    prev.(
      title := b.title.GetOr(prev.title),
      completed := b.completed.GetOr(prev.completed),
      completedAt := CompletedAtAfter(prev, b.completed, now),
      isMainTask := b.isMainTask.GetOr(prev.isMainTask),
      subtasks := b.subtasks.GetOr(prev.subtasks),
      kind := b.kind.GetOr(prev.kind),
      interval := b.interval.GetOr(prev.interval),
      details := b.details.GetOr(prev.details),
      endRecurrence := if b.endRecurrence.Some? then b.endRecurrence else prev.endRecurrence)
  }

  /** A PATCH leaves the scheduling column, the creation date and the links alone. */
  lemma PatchKeepsSchedule(prev: TaskRow, b: PatchBody, now: string)
    ensures var r := Patched(prev, b, now);
            r.nextOccurrence == prev.nextOccurrence && r.originalTaskId == prev.originalTaskId &&
            r.dateAdded == prev.dateAdded && r.mainTaskId == prev.mainTaskId && r.parentId == prev.parentId
  {
  }

  /**
   * The completion timestamp changes only with `completed`: it is set to `now`
   * exactly on false to true and cleared exactly on true to false.
   */
  lemma CompletedAtRule(prev: TaskRow, b: PatchBody, now: string)
    ensures var r := Patched(prev, b, now);
            (r.completedAt != prev.completedAt ==> r.completed != prev.completed) &&
            (!prev.completed && r.completed ==> r.completedAt == Some(now)) &&
            (prev.completed && !r.completed ==> r.completedAt == None)
  {
  }

  /**
   * A PATCH whose end date is null or absent keeps the stored end date: a null
   * `end_recurrence_date` means "not given".
   */
  lemma PatchKeepsEndDate(prev: TaskRow, b: PatchBody, now: string)
    requires prev.endRecurrence.Some?
    ensures Patched(prev, b, now).endRecurrence.Some?
  {
  }

  // ---------------------------------------------------------------------------
  // The SET list

  /** The `title` check. */
  method PushTitle(ghost prev: TaskRow, fields: SetList, b: PatchBody) returns (fields': SetList)
    requires Ordered(fields) && Before(fields, 0)
    ensures ApplyAll(prev, fields') == ApplyAll(prev, fields).(title := b.title.GetOr(ApplyAll(prev, fields).title))
    ensures Ordered(fields') && Before(fields', 1)
    ensures fields'.Empty? <==> fields.Empty? && b.title.None?
  {
    fields' := fields;
    if b.title.Some? {
      fields' := Push(fields, SetTitle(b.title.value));
    }
  }

  /**
   * The `completed` check: `completed`, and `completed_at` when the flag
   * changes against the previous row.
   */
  method PushCompleted(prev: TaskRow, fields: SetList, b: PatchBody, now: string) returns (fields': SetList)
    requires Ordered(fields) && Before(fields, 1)
    requires ApplyAll(prev, fields).completedAt == prev.completedAt
    ensures ApplyAll(prev, fields') == ApplyAll(prev, fields).(completed := b.completed.GetOr(ApplyAll(prev, fields).completed),
                                                              completedAt := CompletedAtAfter(prev, b.completed, now))
    ensures Ordered(fields') && Before(fields', 3)
    ensures fields'.Empty? <==> fields.Empty? && b.completed.None?
  {
    fields' := fields;
    if b.completed.Some? {
      var completed := b.completed.value;
      fields' := Push(fields', SetCompleted(completed));
      if completed && !prev.completed {
        fields' := Push(fields', SetCompletedAt(Some(now)));
      } else if !completed && prev.completed {
        fields' := Push(fields', SetCompletedAt(None));
      }
    }
  }

  /** The `isMainTask` check. */
  method PushIsMainTask(ghost prev: TaskRow, fields: SetList, b: PatchBody) returns (fields': SetList)
    requires Ordered(fields) && Before(fields, 3)
    ensures ApplyAll(prev, fields') == ApplyAll(prev, fields).(isMainTask := b.isMainTask.GetOr(ApplyAll(prev, fields).isMainTask))
    ensures Ordered(fields') && Before(fields', 4)
    ensures fields'.Empty? <==> fields.Empty? && b.isMainTask.None?
  {
    fields' := fields;
    if b.isMainTask.Some? {
      fields' := Push(fields, SetIsMainTask(b.isMainTask.value));
    }
  }

  /** The `subtasks` check. */
  method PushSubtasks(ghost prev: TaskRow, fields: SetList, b: PatchBody) returns (fields': SetList)
    requires Ordered(fields) && Before(fields, 4)
    ensures ApplyAll(prev, fields') == ApplyAll(prev, fields).(subtasks := b.subtasks.GetOr(ApplyAll(prev, fields).subtasks))
    ensures Ordered(fields') && Before(fields', 5)
    ensures fields'.Empty? <==> fields.Empty? && b.subtasks.None?
  {
    fields' := fields;
    if b.subtasks.Some? {
      fields' := Push(fields, SetSubtasks(b.subtasks.value));
    }
  }

  /** The `recurrence_type` check. */
  method PushKind(ghost prev: TaskRow, fields: SetList, b: PatchBody) returns (fields': SetList)
    requires Ordered(fields) && Before(fields, 5)
    ensures ApplyAll(prev, fields') == ApplyAll(prev, fields).(kind := b.kind.GetOr(ApplyAll(prev, fields).kind))
    ensures Ordered(fields') && Before(fields', 6)
    ensures fields'.Empty? <==> fields.Empty? && b.kind.None?
  {
    fields' := fields;
    if b.kind.Some? {
      fields' := Push(fields, SetKind(b.kind.value));
    }
  }

  /** The `recurrence_interval` check. */
  method PushInterval(ghost prev: TaskRow, fields: SetList, b: PatchBody) returns (fields': SetList)
    requires Ordered(fields) && Before(fields, 6)
    ensures ApplyAll(prev, fields') == ApplyAll(prev, fields).(interval := b.interval.GetOr(ApplyAll(prev, fields).interval))
    ensures Ordered(fields') && Before(fields', 7)
    ensures fields'.Empty? <==> fields.Empty? && b.interval.None?
  {
    fields' := fields;
    if b.interval.Some? {
      fields' := Push(fields, SetInterval(b.interval.value));
    }
  }

  /** The `recurrence_details` check. */
  method PushDetails(ghost prev: TaskRow, fields: SetList, b: PatchBody) returns (fields': SetList)
    requires Ordered(fields) && Before(fields, 7)
    ensures ApplyAll(prev, fields') == ApplyAll(prev, fields).(details := b.details.GetOr(ApplyAll(prev, fields).details))
    ensures Ordered(fields') && Before(fields', 8)
    ensures fields'.Empty? <==> fields.Empty? && b.details.None?
  {
    fields' := fields;
    if b.details.Some? {
      fields' := Push(fields, SetDetails(b.details.value));
    }
  }

  /** The `end_recurrence_date` check. */
  method PushEndDate(ghost prev: TaskRow, fields: SetList, b: PatchBody) returns (fields': SetList)
    requires Ordered(fields) && Before(fields, 8)
    ensures ApplyAll(prev, fields') ==
            ApplyAll(prev, fields).(endRecurrence := if b.endRecurrence.Some? then b.endRecurrence else ApplyAll(prev, fields).endRecurrence)
    ensures Ordered(fields')
    ensures fields'.Empty? <==> fields.Empty? && b.endRecurrence.None?
  {
    fields' := fields;
    if b.endRecurrence.Some? {
      fields' := Push(fields, SetEnd(b.endRecurrence.value));
    }
  }

  /**
   * The handler's `updateFields` list. Applied to the previous row it gives
   * `Patched`; it is empty exactly when the body gives no field; it names every
   * column at most once, in the handler's order.
   */
  method BuildUpdate(prev: TaskRow, b: PatchBody, now: string) returns (fields: SetList)
    ensures ApplyAll(prev, fields) == Patched(prev, b, now)
    ensures fields.Empty? <==> NoFieldsGiven(b)
    ensures Ordered(fields)
  {
    fields := PushTitle(prev, Empty, b);
    fields := PushCompleted(prev, fields, b, now);
    fields := PushIsMainTask(prev, fields, b);
    fields := PushSubtasks(prev, fields, b);
    fields := PushKind(prev, fields, b);
    fields := PushInterval(prev, fields, b);
    fields := PushDetails(prev, fields, b);
    fields := PushEndDate(prev, fields, b);
  }
}
