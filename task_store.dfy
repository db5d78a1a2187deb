/**
 * The server's `tasks` table as an in-memory store, the recurring-task
 * generation pass (`generateRecurringTasks`) and the PATCH `/api/tasks/:id`
 * route that applies a partial update to one row.
 */
module TaskStore {
  import opened Wrappers
  import opened Calendar
  import opened Recurrence
  import opened TaskPatch

  // ---------------------------------------------------------------------------
  // The generation pass

  /** The selection `recurrence_type != 'none' AND next_occurrence_date <= today`; a NULL date never compares. */
  predicate IsDue(t: TaskRow, today: Day) {
    t.kind != NoRecurrence && t.nextOccurrence.Some? && t.nextOccurrence.value <= today
  }

  /** The ids the generation query returns. */
  function DueIds(rows: map<TaskId, TaskRow>, today: Day): set<TaskId> {
    set id | id in rows && IsDue(rows[id], today)
  }

  /** `calculateNextOccurrence` of every row, as the pass computes it for each template it selects. */
  function NextDates(rows: map<TaskId, TaskRow>, today: Day): map<TaskId, Option<Day>> {
    map id | id in rows :: NextOccurrence(rows[id], today)
  }

  /** What the pass relies on of its next dates: one for every row, and each one after today. */
  predicate AfterToday(rows: map<TaskId, TaskRow>, nexts: map<TaskId, Option<Day>>, today: Day) {
    forall id :: id in rows ==> id in nexts && (nexts[id].Some? ==> nexts[id].value > today)
  }

  /** The dates `calculateNextOccurrence` computes are such dates. */
  lemma NextDatesAfterToday(rows: map<TaskId, TaskRow>, today: Day)
    ensures AfterToday(rows, NextDates(rows, today), today)
  {
    forall id | id in rows && NextOccurrence(rows[id], today).Some?
      ensures NextOccurrence(rows[id], today).value > today
    {
      NextIsAfterToday(rows[id], today);
    }
  }

  /**
   * The row the INSERT of the pass creates for template `template` with id `id`:
   * the listed columns are copied (`task.subtasks || '[]'` for the steps), the
   * instance is not completed and points back at its template, and every other
   * column takes its default — in particular `recurrence_type = 'none'`.
   */
  function Instance(template: TaskRow, id: TaskId, today: Day): TaskRow {
    TaskRow(
      title := template.title,
      completed := false,
      isMainTask := template.isMainTask,
      subtasks := if template.subtasks == "" then "[]" else template.subtasks,
      dateAdded := today,
      completedAt := None,
      mainTaskId := template.mainTaskId,
      parentId := template.parentId,
      kind := NoRecurrence,
      interval := 0,
      details := "{}",
      originalTaskId := Some(id),
      nextOccurrence := None,
      endRecurrence := None)
  }

  /** An instance is a plain one-off task: it is never selected by a later pass. */
  lemma InstanceIsNeverDue(template: TaskRow, id: TaskId, today: Day, later: Day)
    ensures var r := Instance(template, id, today);
            !IsDue(r, later) && !r.completed && r.originalTaskId == Some(id) && r.title == template.title
    ensures Instance(template, id, today).kind == NoRecurrence
  {
  }

  /**
   * What handling a due template does to its row, given its next occurrence
   * `next`: retired without one; moved on to it when the instance insert
   * succeeded; left alone when the insert failed.
   */
  function Handled(t: TaskRow, next: Option<Day>, insertOk: bool): TaskRow {
    match next
    case None => t.(kind := NoRecurrence, nextOccurrence := None)
    case Some(d) => if insertOk then t.(nextOccurrence := Some(d)) else t
  }

  /** What one pass does to a row whose next date is `next`: due templates are `Handled`, anything else is left alone. */
  function Processed(t: TaskRow, next: Option<Day>, today: Day, insertOk: bool): TaskRow {
    if IsDue(t, today) then Handled(t, next, insertOk) else t
  }

  /** A template handled successfully in a pass is not selected again on the same day. */
  lemma ProcessedIsNotDue(t: TaskRow, today: Day, insertOk: bool)
    requires IsDue(t, today)
    requires NextOccurrence(t, today).None? || insertOk
    ensures !IsDue(Processed(t, NextOccurrence(t, today), today, insertOk), today)
  {
    if NextOccurrence(t, today).Some? {
      NextIsAfterToday(t, today);
    }
  }

  /** A template whose insert failed is untouched and is selected again. */
  lemma FailedInsertIsRetried(t: TaskRow, today: Day)
    requires IsDue(t, today) && NextOccurrence(t, today).Some?
    ensures Processed(t, NextOccurrence(t, today), today, false) == t && IsDue(t, today)
  {
  }

  /**
   * The next date of a template never goes back: an advanced template's new
   * date is after its old one (and after today), and only the next date changes.
   */
  lemma ProcessedAdvances(t: TaskRow, today: Day)
    requires IsDue(t, today) && NextOccurrence(t, today).Some?
    ensures var p := Processed(t, NextOccurrence(t, today), today, true);
            p.nextOccurrence.Some? && p.nextOccurrence.value > t.nextOccurrence.value &&
            p.nextOccurrence.value > today && p == t.(nextOccurrence := p.nextOccurrence)
  {
    NextIsAfterToday(t, today);
  }

  /** The due templates that get an instance: a next date exists and the insert succeeds. */
  function Inserted(rows: map<TaskId, TaskRow>, nexts: map<TaskId, Option<Day>>, today: Day, insertFails: set<TaskId>): set<TaskId> {
    set id | id in rows && id in nexts && IsDue(rows[id], today) && nexts[id].Some? && id !in insertFails
  }

  /** The due templates whose instance insert fails: they are left as they were. */
  function Failed(rows: map<TaskId, TaskRow>, nexts: map<TaskId, Option<Day>>, today: Day, insertFails: set<TaskId>): set<TaskId> {
    set id | id in rows && id in nexts && IsDue(rows[id], today) && nexts[id].Some? && id in insertFails
  }

  // ---------------------------------------------------------------------------
  // The pass, one selected template at a time

  /** The table's contents: rows by id, and the AUTOINCREMENT counter. */
  datatype Table = Table(rows: map<TaskId, TaskRow>, lastId: nat)

  /** Every id was handed out by the counter. */
  predicate Counted(s: Table) {
    forall id :: id in s.rows ==> 1 <= id <= s.lastId
  }

  /** No id is selected twice. */
  predicate Distinct(ids: seq<TaskId>) {
    forall i, j :: 0 <= i < j < |ids| ==> ids[i] != ids[j]
  }

  /** `UPDATE … SET recurrence_type = 'none', next_occurrence_date = NULL WHERE id = ?`: no row, no change. */
  function Retired(rows: map<TaskId, TaskRow>, id: TaskId): map<TaskId, TaskRow> {
    if id in rows then rows[id := rows[id].(kind := NoRecurrence, nextOccurrence := None)] else rows
  }

  /** `UPDATE … SET next_occurrence_date = ? WHERE id = ?`: no row, no change. */
  function Moved(rows: map<TaskId, TaskRow>, id: TaskId, d: Day): map<TaskId, TaskRow> {
    if id in rows then rows[id := rows[id].(nextOccurrence := Some(d))] else rows
  }

  /**
   * The loop body for the selected template `task` with id `id` and next
   * occurrence `next`: without one the row is retired; otherwise the instance
   * is inserted under the next counter value and, when that insert succeeds,
   * the template's next date is moved on. An insert that fails changes nothing.
   */
  function Handle(s: Table, task: TaskRow, id: TaskId, next: Option<Day>, today: Day, insertFails: set<TaskId>): Table {
    match next
    case None => s.(rows := Retired(s.rows, id))
    case Some(d) =>
      if id in insertFails then s
      else Table(Moved(s.rows[s.lastId + 1 := Instance(task, id, today)], id, d), s.lastId + 1)
  }

  /** What the pass reads for the selected ids: a snapshot row and a next date for each. */
  predicate Selectable(snapshot: map<TaskId, TaskRow>, nexts: map<TaskId, Option<Day>>, ids: seq<TaskId>) {
    forall i :: 0 <= i < |ids| ==> ids[i] in snapshot && ids[i] in nexts
  }

  /** The whole pass over the selected ids, in order, each template read from the query's `snapshot`. */
  function Run(s: Table, snapshot: map<TaskId, TaskRow>, nexts: map<TaskId, Option<Day>>, ids: seq<TaskId>,
               today: Day, insertFails: set<TaskId>): Table
    requires Selectable(snapshot, nexts, ids)
    decreases |ids|
  {
    if |ids| == 0 then s
    else
      var last := ids[|ids| - 1];
      var prev := Run(s, snapshot, nexts, ids[..|ids| - 1], today, insertFails);
      Handle(prev, snapshot[last], last, nexts[last], today, insertFails)
  }

  /** The table only grows, and the new ids are the counter values handed out during the pass. */
  lemma {:induction false} RunKeys(s: Table, snapshot: map<TaskId, TaskRow>, nexts: map<TaskId, Option<Day>>,
                                   ids: seq<TaskId>, today: Day, insertFails: set<TaskId>)
    requires Selectable(snapshot, nexts, ids)
    ensures var r := Run(s, snapshot, nexts, ids, today, insertFails);
            s.lastId <= r.lastId && forall x :: x in r.rows <==> x in s.rows || s.lastId < x <= r.lastId
    decreases |ids|
  {
    if |ids| > 0 {
      RunKeys(s, snapshot, nexts, ids[..|ids| - 1], today, insertFails);
    }
  }

  /** The selected templates that get an instance, in the order of the pass. */
  function InsertedList(nexts: map<TaskId, Option<Day>>, ids: seq<TaskId>, insertFails: set<TaskId>): (l: seq<TaskId>)
    requires forall i :: 0 <= i < |ids| ==> ids[i] in nexts
    ensures forall k :: 0 <= k < |l| ==> l[k] in nexts
    decreases |ids|
  {
    if |ids| == 0 then []
    else
      var last := ids[|ids| - 1];
      var front := InsertedList(nexts, ids[..|ids| - 1], insertFails);
      if nexts[last].Some? && last !in insertFails then front + [last] else front
  }

  /** `InsertedList` holds exactly the selected templates with a next date whose insert succeeds. */
  lemma {:induction false} InsertedListMembers(nexts: map<TaskId, Option<Day>>, ids: seq<TaskId>, insertFails: set<TaskId>)
    requires forall i :: 0 <= i < |ids| ==> ids[i] in nexts
    ensures forall t :: t in InsertedList(nexts, ids, insertFails) <==>
                        t in ids && nexts[t].Some? && t !in insertFails
    decreases |ids|
  {
    if |ids| > 0 {
      var front := ids[..|ids| - 1];
      InsertedListMembers(nexts, front, insertFails);
      assert ids == front + [ids[|ids| - 1]];
    }
  }

  /** Keeping part of a list without repeats keeps it without repeats. */
  lemma {:induction false} InsertedListDistinct(nexts: map<TaskId, Option<Day>>, ids: seq<TaskId>, insertFails: set<TaskId>)
    requires forall i :: 0 <= i < |ids| ==> ids[i] in nexts
    requires Distinct(ids)
    ensures Distinct(InsertedList(nexts, ids, insertFails))
    decreases |ids|
  {
    if |ids| > 0 {
      var front := ids[..|ids| - 1];
      InsertedListDistinct(nexts, front, insertFails);
      InsertedListMembers(nexts, front, insertFails);
      assert ids[|ids| - 1] !in front;
    }
  }

  /** A list without repeats has as many elements as the set of them. */
  lemma {:induction false} DistinctCardinality(l: seq<TaskId>)
    requires Distinct(l)
    ensures |set t | t in l| == |l|
    decreases |l|
  {
    if |l| > 0 {
      var front := l[..|l| - 1];
      DistinctCardinality(front);
      assert l[|l| - 1] !in front;
      assert (set t | t in l) == (set t | t in front) + {l[|l| - 1]};
    }
  }

  /** A row the pass does not select keeps its contents. */
  lemma {:induction false} RunKeepsOthers(s: Table, snapshot: map<TaskId, TaskRow>, nexts: map<TaskId, Option<Day>>,
                                          ids: seq<TaskId>, today: Day, insertFails: set<TaskId>, x: TaskId)
    requires Selectable(snapshot, nexts, ids)
    requires Counted(s) && x in s.rows && x !in ids
    ensures var r := Run(s, snapshot, nexts, ids, today, insertFails);
            x in r.rows && r.rows[x] == s.rows[x]
    decreases |ids|
  {
    if |ids| > 0 {
      var front := ids[..|ids| - 1];
      assert x !in front;
      RunKeepsOthers(s, snapshot, nexts, front, today, insertFails, x);
      RunKeys(s, snapshot, nexts, front, today, insertFails);
    }
  }

  /** Each selected template ends up `Handled`, as long as no template is selected twice. */
  lemma {:induction false} RunHandlesTemplates(s: Table, snapshot: map<TaskId, TaskRow>, nexts: map<TaskId, Option<Day>>,
                                               ids: seq<TaskId>, today: Day, insertFails: set<TaskId>)
    requires Selectable(snapshot, nexts, ids)
    requires Counted(s) && Distinct(ids)
    requires forall i :: 0 <= i < |ids| ==> ids[i] in s.rows && s.rows[ids[i]] == snapshot[ids[i]]
    ensures var r := Run(s, snapshot, nexts, ids, today, insertFails);
            forall i :: 0 <= i < |ids| ==>
              ids[i] in r.rows && r.rows[ids[i]] == Handled(snapshot[ids[i]], nexts[ids[i]], ids[i] !in insertFails)
    decreases |ids|
  {
    if |ids| > 0 {
      var front := ids[..|ids| - 1];
      var last := ids[|ids| - 1];
      var r := Run(s, snapshot, nexts, ids, today, insertFails);
      RunHandlesTemplates(s, snapshot, nexts, front, today, insertFails);
      assert last !in front;
      RunKeepsOthers(s, snapshot, nexts, front, today, insertFails, last);
      RunKeys(s, snapshot, nexts, front, today, insertFails);
      forall i | 0 <= i < |ids|
        ensures ids[i] in r.rows && r.rows[ids[i]] == Handled(snapshot[ids[i]], nexts[ids[i]], ids[i] !in insertFails)
      {
        if i < |ids| - 1 {
          assert ids[i] == front[i] && ids[i] != last;
        }
      }
    }
  }

  /** The rows after id `base` are, id after id, the instances of the templates `l`. */
  predicate InstancesAfter(rows: map<TaskId, TaskRow>, base: nat, snapshot: map<TaskId, TaskRow>, l: seq<TaskId>, today: Day) {
    forall k :: 0 <= k < |l| ==>
      l[k] in snapshot && base + 1 + k in rows && rows[base + 1 + k] == Instance(snapshot[l[k]], l[k], today)
  }

  /** The new rows are, id after id, the instances of `InsertedList`. */
  lemma {:induction false} RunInsertsInstances(s: Table, snapshot: map<TaskId, TaskRow>, nexts: map<TaskId, Option<Day>>,
                                               ids: seq<TaskId>, today: Day, insertFails: set<TaskId>)
    requires Selectable(snapshot, nexts, ids)
    requires Counted(s) && forall i :: 0 <= i < |ids| ==> ids[i] in s.rows
    ensures var r := Run(s, snapshot, nexts, ids, today, insertFails);
            var l := InsertedList(nexts, ids, insertFails);
            r.lastId == s.lastId + |l| && InstancesAfter(r.rows, s.lastId, snapshot, l, today)
    decreases |ids|
  {
    if |ids| > 0 {
      var front := ids[..|ids| - 1];
      var last := ids[|ids| - 1];
      RunInsertsInstances(s, snapshot, nexts, front, today, insertFails);
      RunKeys(s, snapshot, nexts, front, today, insertFails);
      var l0 := InsertedList(nexts, front, insertFails);
      var r := Run(s, snapshot, nexts, ids, today, insertFails);
      if nexts[last].Some? && last !in insertFails {
        var prev := Run(s, snapshot, nexts, front, today, insertFails);
        var l := l0 + [last];
        var added := prev.rows[prev.lastId + 1 := Instance(snapshot[last], last, today)];
        assert InsertedList(nexts, ids, insertFails) == l;
        assert last <= s.lastId && last in prev.rows;
        assert r.rows == added[last := added[last].(nextOccurrence := nexts[last])];
        forall k | 0 <= k < |l|
          ensures l[k] in snapshot && s.lastId + 1 + k in r.rows && r.rows[s.lastId + 1 + k] == Instance(snapshot[l[k]], l[k], today)
        {
          var x := s.lastId + 1 + k;
          if k < |l0| {
            assert l[k] == l0[k] && x in prev.rows && x != last && x != prev.lastId + 1;
            assert r.rows[x] == prev.rows[x];
          } else {
            assert x == prev.lastId + 1 && x != last;
          }
        }
      }
    }
  }

  // ---------------------------------------------------------------------------
  // The outcome of a pass over the due templates

  /** What a pass starts from: a counted table, and every due template selected once. */
  predicate PassStart(rows0: map<TaskId, TaskRow>, last0: nat, selected: seq<TaskId>, today: Day) {
    Counted(Table(rows0, last0)) && Distinct(selected) &&
    (forall i :: 0 <= i < |selected| ==> selected[i] in rows0 && IsDue(rows0[selected[i]], today)) &&
    forall id :: id in rows0 && IsDue(rows0[id], today) ==> id in selected
  }

  /** The pass itself, with the snapshot taken at the start and the next date `nexts[id]` of each template. */
  function Pass(rows0: map<TaskId, TaskRow>, last0: nat, nexts: map<TaskId, Option<Day>>, selected: seq<TaskId>,
                today: Day, insertFails: set<TaskId>): Table
    requires Selectable(rows0, nexts, selected)
  {
    Run(Table(rows0, last0), rows0, nexts, selected, today, insertFails)
  }

  /** Every old row ends up `Processed`: handled if it was selected, untouched otherwise. */
  lemma PassProcessesRows(rows0: map<TaskId, TaskRow>, last0: nat, nexts: map<TaskId, Option<Day>>, selected: seq<TaskId>,
                          today: Day, insertFails: set<TaskId>)
    requires PassStart(rows0, last0, selected, today) && AfterToday(rows0, nexts, today) && Selectable(rows0, nexts, selected)
    ensures var r := Pass(rows0, last0, nexts, selected, today, insertFails);
            forall id :: id in rows0 ==> id in r.rows && r.rows[id] == Processed(rows0[id], nexts[id], today, id !in insertFails)
  {
    var s := Table(rows0, last0);
    var r := Pass(rows0, last0, nexts, selected, today, insertFails);
    RunHandlesTemplates(s, rows0, nexts, selected, today, insertFails);
    forall id | id in rows0 ensures id in r.rows && r.rows[id] == Processed(rows0[id], nexts[id], today, id !in insertFails) {
      if id in selected {
        var i :| 0 <= i < |selected| && selected[i] == id;
        assert r.rows[selected[i]] == Handled(rows0[id], nexts[id], id !in insertFails);
      } else {
        RunKeepsOthers(s, rows0, nexts, selected, today, insertFails, id);
      }
    }
  }

  /** The selected templates that get an instance are exactly the `Inserted` ones. */
  lemma InsertedListIsInserted(rows0: map<TaskId, TaskRow>, last0: nat, nexts: map<TaskId, Option<Day>>, selected: seq<TaskId>,
                               today: Day, insertFails: set<TaskId>)
    requires PassStart(rows0, last0, selected, today) && AfterToday(rows0, nexts, today) && Selectable(rows0, nexts, selected)
    ensures var l := InsertedList(nexts, selected, insertFails);
            Distinct(l) && (forall t :: t in l <==> t in Inserted(rows0, nexts, today, insertFails)) &&
            |l| == |Inserted(rows0, nexts, today, insertFails)|
  {
    var l := InsertedList(nexts, selected, insertFails);
    InsertedListDistinct(nexts, selected, insertFails);
    InsertedListMembers(nexts, selected, insertFails);
    forall t ensures t in l <==> t in Inserted(rows0, nexts, today, insertFails) {
      if t in selected {
        var i :| 0 <= i < |selected| && selected[i] == t;
      }
    }
    DistinctCardinality(l);
    assert (set t | t in l) == Inserted(rows0, nexts, today, insertFails);
  }

  /**
   * The new rows are, in the order of the pass, one instance per selected
   * template of `InsertedList` (which `InsertedListIsInserted` shows to hold
   * each `Inserted` template once), each under the next counter value.
   */
  lemma PassInsertsInstances(rows0: map<TaskId, TaskRow>, last0: nat, nexts: map<TaskId, Option<Day>>, selected: seq<TaskId>,
                             today: Day, insertFails: set<TaskId>)
    requires PassStart(rows0, last0, selected, today) && Selectable(rows0, nexts, selected)
    ensures var r := Pass(rows0, last0, nexts, selected, today, insertFails);
            var l := InsertedList(nexts, selected, insertFails);
            r.lastId == last0 + |l| && InstancesAfter(r.rows, last0, rows0, l, today)
  {
    RunInsertsInstances(Table(rows0, last0), rows0, nexts, selected, today, insertFails);
  }

  /** After a pass only the templates whose insert failed are still due. */
  lemma PassLeavesFailedDue(rows0: map<TaskId, TaskRow>, last0: nat, nexts: map<TaskId, Option<Day>>, selected: seq<TaskId>,
                            today: Day, insertFails: set<TaskId>)
    requires PassStart(rows0, last0, selected, today) && AfterToday(rows0, nexts, today) && Selectable(rows0, nexts, selected)
    ensures DueIds(Pass(rows0, last0, nexts, selected, today, insertFails).rows, today) == Failed(rows0, nexts, today, insertFails)
  {
    var r := Pass(rows0, last0, nexts, selected, today, insertFails);
    var l := InsertedList(nexts, selected, insertFails);
    RunKeys(Table(rows0, last0), rows0, nexts, selected, today, insertFails);
    PassProcessesRows(rows0, last0, nexts, selected, today, insertFails);
    PassInsertsInstances(rows0, last0, nexts, selected, today, insertFails);
    forall id | last0 < id <= r.lastId ensures id in r.rows && r.rows[id].kind == NoRecurrence {
      var k := id - last0 - 1;
      assert r.rows[last0 + 1 + k] == Instance(rows0[l[k]], l[k], today);
    }
    DueAfterPass(rows0, nexts, r.rows, last0, r.lastId, today, insertFails);
  }

  /** The set-level step of `PassLeavesFailedDue`. */
  lemma DueAfterPass(rows0: map<TaskId, TaskRow>, nexts: map<TaskId, Option<Day>>, rows: map<TaskId, TaskRow>,
                     last0: nat, last: nat, today: Day, insertFails: set<TaskId>)
    requires AfterToday(rows0, nexts, today)
    requires forall id :: id in rows <==> id in rows0 || last0 < id <= last
    requires forall id :: id in rows0 ==> rows[id] == Processed(rows0[id], nexts[id], today, id !in insertFails)
    requires forall id :: last0 < id <= last && id !in rows0 ==> rows[id].kind == NoRecurrence
    ensures DueIds(rows, today) == Failed(rows0, nexts, today, insertFails)
  {
    forall id | id in rows
      ensures id in DueIds(rows, today) <==> id in Failed(rows0, nexts, today, insertFails)
    {
      if id in rows0 {
        var t := rows0[id];
        if !IsDue(t, today) || (nexts[id].Some? && id in insertFails) {
          assert rows[id] == t;
        } else {
          assert !IsDue(rows[id], today);
        }
      } else {
        assert rows[id].kind == NoRecurrence;
      }
    }
    assert forall id :: id in Failed(rows0, nexts, today, insertFails) ==> id in rows;
  }

  /** Everything a pass promises, in one place: the table stays counted, and the three lemmas above. */
  lemma PassOutcome(rows0: map<TaskId, TaskRow>, last0: nat, nexts: map<TaskId, Option<Day>>, selected: seq<TaskId>,
                    today: Day, insertFails: set<TaskId>)
    requires PassStart(rows0, last0, selected, today) && AfterToday(rows0, nexts, today) && Selectable(rows0, nexts, selected)
    ensures var r := Pass(rows0, last0, nexts, selected, today, insertFails);
            Counted(r) &&
            (forall id :: id in rows0 ==> id in r.rows && r.rows[id] == Processed(rows0[id], nexts[id], today, id !in insertFails)) &&
            r.lastId == last0 + |Inserted(rows0, nexts, today, insertFails)| &&
            DueIds(r.rows, today) == Failed(rows0, nexts, today, insertFails)
  {
    RunKeys(Table(rows0, last0), rows0, nexts, selected, today, insertFails);
    PassProcessesRows(rows0, last0, nexts, selected, today, insertFails);
    PassInsertsInstances(rows0, last0, nexts, selected, today, insertFails);
    InsertedListIsInserted(rows0, last0, nexts, selected, today, insertFails);
    PassLeavesFailedDue(rows0, last0, nexts, selected, today, insertFails);
  }

  // ---------------------------------------------------------------------------
  // The store

  /** The answer of the PATCH route: 404, 400 "No fields to update", or the update. */
  datatype PatchStatus = NotFound | NoFields | Updated

  /** The `tasks` table: rows by id, and the AUTOINCREMENT counter. */
  class Store {
    var rows: map<TaskId, TaskRow>
    var lastId: nat

    ghost predicate Valid()
      reads this
    {
      Counted(Table(rows, lastId))
    }

    constructor()
      ensures rows == map[] && lastId == 0 && Valid()
    {
      rows := map[];
      lastId := 0;
    }

    /**
     * One generation pass on day `today`. `selected` is what the selection
     * query returns: each due template once, in the database's order. The
     * inserts of the templates in `insertFails` fail.
     */
    method Generate(today: Day, selected: seq<TaskId>, insertFails: set<TaskId>)
      requires Valid() && PassStart(rows, lastId, selected, today)
      modifies this
      ensures Valid()
      ensures Table(rows, lastId) == Pass(old(rows), old(lastId), NextDates(old(rows), today), selected, today, insertFails)
      ensures forall id :: id in old(rows) ==>
                id in rows && rows[id] == Processed(old(rows)[id], NextOccurrence(old(rows)[id], today), today, id !in insertFails)
      ensures lastId == old(lastId) + |Inserted(old(rows), NextDates(old(rows), today), today, insertFails)|
      ensures DueIds(rows, today) == Failed(old(rows), NextDates(old(rows), today), today, insertFails)
    {
      var snapshot := rows;
      ghost var start := Table(rows, lastId);
      ghost var nexts := NextDates(snapshot, today);
      var i := 0;
      while i < |selected|
        invariant 0 <= i <= |selected|
        invariant Table(rows, lastId) == Run(start, snapshot, nexts, selected[..i], today, insertFails)
      {
        var id := selected[i];
        var task := snapshot[id];
        var nextDue := CalculateNextOccurrence(task, today);
        HandleTemplate(task, id, nextDue, today, insertFails);
        assert selected[..i + 1][..i] == selected[..i];
        i := i + 1;
      }
      assert selected[..i] == selected;
      NextDatesAfterToday(snapshot, today);
      PassOutcome(start.rows, start.lastId, nexts, selected, today, insertFails);
    }

    /**
     * The loop body of the pass for template `task` with id `id`, whose next
     * date `nextDue` is already computed: retire it, or insert its instance
     * and, when that succeeds, move it on. An UPDATE of a missing row does nothing.
     */
    method HandleTemplate(task: TaskRow, id: TaskId, nextDue: Option<Day>, today: Day, insertFails: set<TaskId>)
      modifies this
      ensures Table(rows, lastId) == Handle(old(Table(rows, lastId)), task, id, nextDue, today, insertFails)
    {
      if nextDue.None? {
        if id in rows {
          rows := rows[id := rows[id].(kind := NoRecurrence, nextOccurrence := None)];
        }
      } else if id !in insertFails {
        lastId := lastId + 1;
        rows := rows[lastId := Instance(task, id, today)];
        if id in rows {
          rows := rows[id := rows[id].(nextOccurrence := nextDue)];
        }
      }
    }

    /**
     * The PATCH route for task `id`: 404 when there is no such row, 400 when
     * the body gives no field, otherwise the row becomes `Patched`.
     */
    method Patch(id: TaskId, b: PatchBody, now: string) returns (status: PatchStatus)
      requires Valid()
      modifies this
      ensures Valid() && lastId == old(lastId)
      ensures status == NotFound <==> id !in old(rows)
      ensures status == NoFields <==> id in old(rows) && NoFieldsGiven(b)
      ensures status == Updated ==> rows == old(rows)[id := Patched(old(rows)[id], b, now)]
      ensures status != Updated ==> rows == old(rows)
    {
      if id !in rows {
        return NotFound;
      }
      var fields := BuildUpdate(rows[id], b, now);
      if fields.Empty? {
        return NoFields;
      }
      rows := rows[id := ApplyAll(rows[id], fields)];
      status := Updated;
    }
  }
}
