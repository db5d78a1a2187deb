/**
 * The page's task list: the tasks kept in the browser, the "main task" of the
 * day with its steps, the list of all tasks on the right-hand panel, and the
 * normalisation applied to the list when it is loaded.
 */
module TaskBoard {
  import opened Wrappers
  import opened Pomodoro

  // ---------------------------------------------------------------------------
  // Text input: `String.prototype.trim`

  /** The characters `trim` removes: white space and line terminators. */
  predicate IsSpace(c: char) {
    c == ' ' || c == '\t' || c == '\n' || c == '\r' || c == '\U{000B}' || c == '\U{000C}' ||
    c == '\U{00A0}' || c == '\U{1680}' || ('\U{2000}' <= c <= '\U{200A}') || c == '\U{2028}' ||
    c == '\U{2029}' || c == '\U{202F}' || c == '\U{205F}' || c == '\U{3000}' || c == '\U{FEFF}'
  }

  predicate AllSpace(s: string) {
    forall i :: 0 <= i < |s| ==> IsSpace(s[i])
  }

  /** `s` without its leading white space. */
  function TrimStart(s: string): (r: string)
    ensures |r| <= |s| && r == s[|s| - |r|..]
    ensures AllSpace(s[..|s| - |r|])
    ensures r == [] || !IsSpace(r[0])
  {
    if |s| > 0 && IsSpace(s[0]) then
      var r := TrimStart(s[1..]);
      assert s[1..][..|s| - 1 - |r|] == s[1..|s| - |r|];
      r
    else s
  }

  /** `s` without its trailing white space. */
  function TrimEnd(s: string): (r: string)
    ensures |r| <= |s| && r == s[..|r|]
    ensures AllSpace(s[|r|..])
    ensures r == [] || !IsSpace(r[|r| - 1])
  {
    if |s| > 0 && IsSpace(s[|s| - 1]) then
      var r := TrimEnd(s[..|s| - 1]);
      assert s[..|s| - 1][|r|..] == s[|r|..|s| - 1];
      r
    else s
  }

  /** `s.trim()`. */
  function Trim(s: string): string {
    TrimEnd(TrimStart(s))
  }

  /** A title is refused exactly when it is all white space (or empty). */
  lemma TrimEmptyIffBlank(s: string)
    ensures Trim(s) == "" <==> AllSpace(s)
  {
  }

  /** Trimming again changes nothing: the text has white space at neither end. */
  lemma TrimIdempotent(s: string)
    ensures Trim(Trim(s)) == Trim(s)
  {
    var a := TrimStart(s);
    var r := TrimEnd(a);
    if r != [] {
      assert r[0] == a[0];
    }
    assert TrimStart(r) == r;
  }

  // ---------------------------------------------------------------------------
  // Steps and progress

  /** A step of a task, `{text, done}`. */
  datatype Step = Step(text: string, done: bool)

  /** `subtasks.filter(step => step.done).length`. */
  function CompletedSteps(steps: seq<Step>): (n: nat)
    ensures n <= |steps|
    ensures n == |steps| <==> forall i :: 0 <= i < |steps| ==> steps[i].done
  {
    if |steps| == 0 then 0
    else CompletedSteps(steps[..|steps| - 1]) + (if steps[|steps| - 1].done then 1 else 0)
  }

  /** `subtasks.every(step => step.done)`. */
  predicate AllDone(steps: seq<Step>) {
    forall i :: 0 <= i < |steps| ==> steps[i].done
  }

  /** The check after a step is ticked: the main task is completed when it has steps, all done. */
  predicate ShouldAutoComplete(steps: seq<Step>, done: bool) {
    |steps| > 0 && AllDone(steps) && !done
  }

  /** Step `index` ticked or unticked. */
  function Toggled(steps: seq<Step>, index: nat): seq<Step>
    requires index < |steps|
  {
    steps[index := steps[index].(done := !steps[index].done)]
  }

  /** Step `index` removed (`splice(index, 1)`). */
  function Without<T>(s: seq<T>, index: nat): seq<T>
    requires index < |s|
  {
    s[..index] + s[index + 1..]
  }

  /** Ticking a step moves the completed count by one, in the step's direction. */
  lemma {:induction false} ToggleCounts(steps: seq<Step>, index: nat)
    requires index < |steps|
    ensures CompletedSteps(Toggled(steps, index)) ==
            CompletedSteps(steps) + (if steps[index].done then -1 else 1)
    decreases |steps|
  {
    var t := Toggled(steps, index);
    var n := |steps| - 1;
    var front := steps[..n];
    assert CompletedSteps(steps) == CompletedSteps(front) + (if steps[n].done then 1 else 0);
    assert CompletedSteps(t) == CompletedSteps(t[..n]) + (if t[n].done then 1 else 0);
    if index < n {
      assert t[..n] == Toggled(front, index) && t[n] == steps[n];
      ToggleCounts(front, index);
    } else {
      assert t[..n] == front;
    }
  }

  /** Deleting a step takes its own contribution off the completed count. */
  lemma {:induction false} DeleteCounts(steps: seq<Step>, index: nat)
    requires index < |steps|
    ensures CompletedSteps(Without(steps, index)) ==
            CompletedSteps(steps) - (if steps[index].done then 1 else 0)
    decreases |steps|
  {
    var w := Without(steps, index);
    var n := |steps| - 1;
    var front := steps[..n];
    assert CompletedSteps(steps) == CompletedSteps(front) + (if steps[n].done then 1 else 0);
    if index < n {
      assert |w| == n && w[..n - 1] == Without(front, index) && w[n - 1] == steps[n];
      assert CompletedSteps(w) == CompletedSteps(Without(front, index)) + (if steps[n].done then 1 else 0);
      DeleteCounts(front, index);
      assert front[index] == steps[index];
    } else {
      assert w == front;
    }
  }

  // ---------------------------------------------------------------------------
  // Tasks

  /** The contents of a task object. */
  datatype TaskValue = TaskValue(id: int, title: string, subtasks: seq<Step>, done: bool, isMainTask: bool)

  /** A task object; the main task is one of these, shared with the list. */
  class Task {
    const id: int
    var title: string
    var subtasks: seq<Step>
    var done: bool
    var isMainTask: bool

    function Value(): TaskValue
      reads this
    {
      TaskValue(id, title, subtasks, done, isMainTask)
    }

    constructor(v: TaskValue)
      ensures Value() == v
    {
      id := v.id;
      title := v.title;
      subtasks := v.subtasks;
      done := v.done;
      isMainTask := v.isMainTask;
    }
  }

  /** The contents of a list of task objects. */
  function Values(ts: seq<Task>): (vs: seq<TaskValue>)
    reads set t | t in ts
    ensures |vs| == |ts| && forall i :: 0 <= i < |ts| ==> vs[i] == ts[i].Value()
  {
    if |ts| == 0 then [] else Values(ts[..|ts| - 1]) + [ts[|ts| - 1].Value()]
  }

  /** `tasks.findIndex(t => t.id === id)`. */
  function FindIndex(ts: seq<Task>, id: int): (r: int)
    ensures -1 <= r < |ts|
    ensures r == -1 <==> forall j :: 0 <= j < |ts| ==> ts[j].id != id
    ensures r >= 0 ==> ts[r].id == id && forall j :: 0 <= j < r ==> ts[j].id != id
  {
    if |ts| == 0 then -1
    else if ts[0].id == id then 0
    else
      var r := FindIndex(ts[1..], id);
      if r == -1 then -1 else r + 1
  }

  // ---------------------------------------------------------------------------
  // Loading the stored list

  /** A stored step: an old-style plain string, or a `{text, done}` object. */
  datatype StoredStep = TextStep(text: string) | ObjectStep(step: Step)

  /**
   * A task as parsed from storage. A missing or false `done` or `isMainTask`
   * is `None` or `Some(false)`; `subtasks` is `None` when it is missing or not
   * an array.
   */
  datatype StoredTask = StoredTask(id: int, title: string, done: Option<bool>, isMainTask: Option<bool>,
                                   subtasks: Option<seq<StoredStep>>)

  /** A string step becomes `{text, done: false}`; an object is kept. */
  function NormalizeStep(s: StoredStep): Step {
    match s
    case TextStep(text) => Step(text, false)
    case ObjectStep(step) => step
  }

  function NormalizeSteps(ss: seq<StoredStep>): (steps: seq<Step>)
    ensures |steps| == |ss| && forall i :: 0 <= i < |ss| ==> steps[i] == NormalizeStep(ss[i])
  {
    if |ss| == 0 then [] else NormalizeSteps(ss[..|ss| - 1]) + [NormalizeStep(ss[|ss| - 1])]
  }

  /** The normalisation the page applies to each stored task. */
  function Normalize(r: StoredTask): TaskValue {
    TaskValue(r.id, r.title,
              if r.subtasks.Some? then NormalizeSteps(r.subtasks.value) else [],
              r.done.GetOr(false), r.isMainTask.GetOr(false))
  }

  /** What `saveTasks` stores for a task: every field present, every step an object. */
  function Saved(v: TaskValue): StoredTask {
    StoredTask(v.id, v.title, Some(v.done), Some(v.isMainTask), Some(seq(|v.subtasks|, i requires 0 <= i < |v.subtasks| => ObjectStep(v.subtasks[i]))))
  }

  /** Loading what was saved gives the same task back. */
  lemma LoadAfterSave(v: TaskValue)
    ensures Normalize(Saved(v)) == v
  {
    var steps := NormalizeSteps(Saved(v).subtasks.value);
    assert steps == v.subtasks;
  }

  /** Normalising twice is normalising once, through a save. */
  lemma NormalizeIdempotent(r: StoredTask)
    ensures Normalize(Saved(Normalize(r))) == Normalize(r)
  {
    LoadAfterSave(Normalize(r));
  }

  /** A task that is the main task and not done: the one the left panel works on. */
  predicate ActiveMain(v: TaskValue) {
    v.isMainTask && !v.done
  }

  /** `tasks.find(task => task.isMainTask && !task.done)`, as an index. */
  function FirstActiveMain(vs: seq<TaskValue>): (r: Option<nat>)
    ensures r.None? <==> forall j :: 0 <= j < |vs| ==> !ActiveMain(vs[j])
    ensures r.Some? ==> r.value < |vs| && ActiveMain(vs[r.value]) &&
                        forall j :: 0 <= j < r.value ==> !ActiveMain(vs[j])
  {
    if |vs| == 0 then None
    else if ActiveMain(vs[0]) then Some(0)
    else
      var r := FirstActiveMain(vs[1..]);
      if r.Some? then Some(r.value + 1) else None
  }

  // ---------------------------------------------------------------------------
  // The right-hand panel

  /** The filter of the panel: not the main task, or a main task that is done. */
  predicate Listed(v: TaskValue) {
    !v.isMainTask || (v.isMainTask && v.done)
  }

  /** The tasks the panel's loop skips: done tasks that are not the main task. */
  predicate Skipped(v: TaskValue) {
    v.done && !v.isMainTask
  }

  /** `tasks.filter(Listed)`. */
  function ListedTasks(vs: seq<TaskValue>): seq<TaskValue> {
    if |vs| == 0 then []
    else ListedTasks(vs[..|vs| - 1]) + (if Listed(vs[|vs| - 1]) then [vs[|vs| - 1]] else [])
  }

  /** The listed tasks the loop draws, in order. */
  function Drawn(vs: seq<TaskValue>): seq<TaskValue> {
    var listed := ListedTasks(vs);
    DropSkipped(listed)
  }

  function DropSkipped(vs: seq<TaskValue>): seq<TaskValue> {
    if |vs| == 0 then []
    else DropSkipped(vs[..|vs| - 1]) + (if Skipped(vs[|vs| - 1]) then [] else [vs[|vs| - 1]])
  }

  /** What the panel draws for a task: an open regular task, or a main task that is done. */
  predicate Shown(v: TaskValue) {
    (!v.isMainTask && !v.done) || (v.isMainTask && v.done)
  }

  /** `ListedTasks` keeps exactly the listed tasks. */
  lemma {:induction false} ListedTasksMembers(vs: seq<TaskValue>)
    ensures forall v :: v in ListedTasks(vs) <==> v in vs && Listed(v)
    decreases |vs|
  {
    if |vs| > 0 {
      ListedTasksMembers(vs[..|vs| - 1]);
      assert vs == vs[..|vs| - 1] + [vs[|vs| - 1]];
    }
  }

  /** `DropSkipped` keeps exactly the tasks that are not skipped. */
  lemma {:induction false} DropSkippedMembers(vs: seq<TaskValue>)
    ensures forall v :: v in DropSkipped(vs) <==> v in vs && !Skipped(v)
    decreases |vs|
  {
    if |vs| > 0 {
      DropSkippedMembers(vs[..|vs| - 1]);
      assert vs == vs[..|vs| - 1] + [vs[|vs| - 1]];
    }
  }

  /** The panel draws a task exactly when it is an open regular task or a done main task. */
  lemma DrawnIff(vs: seq<TaskValue>)
    ensures forall v :: v in Drawn(vs) <==> v in vs && Shown(v)
  {
    ListedTasksMembers(vs);
    DropSkippedMembers(ListedTasks(vs));
  }

  /** What the panel shows: the "No task selected yet." message, or the drawn tasks. */
  datatype Panel = NoTaskMessage | Items(items: seq<TaskValue>)

  /** The panel as written: the message is chosen from the filtered list, before the loop skips anything. */
  function PanelAsWritten(vs: seq<TaskValue>): Panel {
    if |ListedTasks(vs)| == 0 then NoTaskMessage else Items(Drawn(vs))
  }

  /**
   * The panel as written shows the message exactly when no task passes the
   * filter, and otherwise draws exactly the tasks to be shown (possibly none).
   */
  lemma PanelAsWrittenMessage(vs: seq<TaskValue>)
    ensures PanelAsWritten(vs) == NoTaskMessage <==> forall v :: v in vs ==> !Listed(v)
    ensures PanelAsWritten(vs).Items? ==> forall v :: v in PanelAsWritten(vs).items <==> v in vs && Shown(v)
  {
    ListedTasksMembers(vs);
    DrawnIff(vs);
    var listed := ListedTasks(vs);
    if |listed| > 0 {
      assert listed[0] in listed;
    }
  }

  /** A list holding one finished regular task leaves the panel blank: no message and no task. */
  lemma BlankPanelAsWritten()
    ensures PanelAsWritten([TaskValue(1, "a", [], true, false)]) == Items([])
  {
    var vs := [TaskValue(1, "a", [], true, false)];
    assert vs[..0] == [];
    assert ListedTasks(vs) == vs;
  }

  /** The panel with the message shown whenever nothing is drawn. */
  function PanelView(vs: seq<TaskValue>): Panel {
    var drawn := Drawn(vs);
    if |drawn| == 0 then NoTaskMessage else Items(drawn)
  }

  /** The message appears exactly when no task is to be shown, and a list of items is never empty. */
  lemma PanelViewMessage(vs: seq<TaskValue>)
    ensures PanelView(vs) == NoTaskMessage <==> forall v :: v in vs ==> !Shown(v)
    ensures PanelView(vs).Items? ==> |PanelView(vs).items| > 0 &&
                                     forall v :: v in PanelView(vs).items <==> v in vs && Shown(v)
  {
    DrawnIff(vs);
    var drawn := Drawn(vs);
    if |drawn| > 0 {
      assert drawn[0] in drawn;
    }
  }

  // ---------------------------------------------------------------------------
  // The page state

  /** `tasks`, `mainTask` and the page's timer. */
  class Board {
    var tasks: seq<Task>
    var mainTask: Task?
    const timer: Timer

    /** A main task that is set is a main task, and not done. */
    ghost predicate Valid()
      reads this, mainTask
    {
      mainTask != null ==> ActiveMain(mainTask.Value())
    }

    /**
     * The page starting up with `stored` (`None` when nothing is stored): each
     * stored task normalised into a new object, and the first active main task
     * taken as the main task.
     */
    constructor Load(stored: Option<seq<StoredTask>>, timer: Timer)
      ensures this.timer == timer
      ensures stored.None? ==> tasks == [] && mainTask == null
      ensures stored.Some? ==> |tasks| == |stored.value| &&
                               forall i :: 0 <= i < |tasks| ==> fresh(tasks[i]) && tasks[i].Value() == Normalize(stored.value[i])
      ensures mainTask == null <==> FirstActiveMain(Values(tasks)).None?
      ensures mainTask != null ==> mainTask == tasks[FirstActiveMain(Values(tasks)).value]
      ensures Valid()
    {
      this.timer := timer;
      var loaded: seq<Task> := [];
      var found: Task? := null;
      if stored.Some? {
        var i := 0;
        while i < |stored.value|
          invariant 0 <= i <= |stored.value| && |loaded| == i
          invariant forall j :: 0 <= j < i ==> fresh(loaded[j]) && loaded[j].Value() == Normalize(stored.value[j])
        {
          var t := new Task(Normalize(stored.value[i]));
          loaded := loaded + [t];
          i := i + 1;
        }
      }
      var first := FirstActiveMain(Values(loaded));
      if first.Some? {
        found := loaded[first.value];
      }
      tasks := loaded;
      mainTask := found;
    }

    /**
     * `addTask` of the right-hand panel, at time `now`: a blank title does
     * nothing; otherwise a new open regular task goes to the front of the list.
     */
    method AddTask(now: int, input: string)
      modifies this
      ensures mainTask == old(mainTask) && (old(Valid()) ==> Valid())
      ensures Trim(input) == "" ==> tasks == old(tasks)
      ensures Trim(input) != "" ==> |tasks| == |old(tasks)| + 1 && tasks[1..] == old(tasks) && fresh(tasks[0]) &&
                                    tasks[0].Value() == TaskValue(now, Trim(input), [], false, false)
    {
      var title := Trim(input);
      if title == "" {
        return;
      }
      var t := new Task(TaskValue(now, title, [], false, false));
      tasks := [t] + tasks;
    }

    /**
     * The "Done" button of the right-hand panel for the task with id `id`: the
     * first task with that id leaves the list, the others keep their order, and
     * the left panel is drawn again (which resets the timer when no main task is
     * active). An unknown id changes nothing.
     */
    method RemoveTask(id: int)
      modifies this, timer
      ensures mainTask == old(mainTask) && (old(Valid()) ==> Valid())
      ensures var i := FindIndex(old(tasks), id);
              if i == -1 then tasks == old(tasks) && timer.State() == old(timer.State())
              else tasks == Without(old(tasks), i) &&
                   timer.State() == (if mainTask == null || mainTask.done then Fresh else old(timer.State()))
    {
      var i := FindIndex(tasks, id);
      if i > -1 {
        tasks := tasks[..i] + tasks[i + 1..];
        if mainTask == null || mainTask.done {
          timer.Reset();
        }
      }
    }

    /**
     * `addMainTask` at time `now`: a blank title does nothing; while the main
     * task is open the new one is refused; a finished main task is demoted;
     * then a new open main task goes to the front of the list and becomes the
     * main task.
     */
    method AddMainTask(now: int, input: string)
      modifies this, mainTask
      ensures Trim(input) == "" || (old(mainTask) != null && !old(mainTask.done)) ==>
                tasks == old(tasks) && mainTask == old(mainTask) && (mainTask != null ==> mainTask.Value() == old(mainTask.Value()))
      ensures Trim(input) != "" && (old(mainTask) == null || old(mainTask.done)) ==>
                |tasks| == |old(tasks)| + 1 && tasks[1..] == old(tasks) && fresh(tasks[0]) && mainTask == tasks[0] &&
                mainTask.Value() == TaskValue(now, Trim(input), [], false, true) &&
                (old(mainTask) != null ==> old(mainTask).Value() == old(mainTask.Value()).(isMainTask := false)) &&
                Valid()
      ensures old(Valid()) ==> Valid()
      ensures old(Valid()) && old(mainTask) != null ==> tasks == old(tasks) && mainTask == old(mainTask)
    {
      var title := Trim(input);
      if title == "" {
        return;
      }
      if mainTask != null && !mainTask.done {
        return;
      }
      if mainTask != null && mainTask.done {
        mainTask.isMainTask := false;
      }
      var t := new Task(TaskValue(now, title, [], false, true));
      mainTask := t;
      tasks := [t] + tasks;
    }

    /** `submitStep`: with a main task and a non-blank text, a new open step goes to the end of its steps. */
    method SubmitStep(input: string)
      modifies mainTask
      ensures mainTask != null && Trim(input) != "" ==>
                mainTask.subtasks == old(mainTask.subtasks) + [Step(Trim(input), false)]
      ensures mainTask == null || Trim(input) == "" ==> mainTask == null || mainTask.subtasks == old(mainTask.subtasks)
      ensures mainTask == null || mainTask.Value() == old(mainTask.Value()).(subtasks := mainTask.subtasks)
      ensures old(Valid()) ==> Valid()
    {
      if mainTask == null {
        return;
      }
      var text := Trim(input);
      if text == "" {
        return;
      }
      mainTask.subtasks := mainTask.subtasks + [Step(text, false)];
    }

    /**
     * `markMainTaskDone`: the main task is marked done and released, and the
     * timer is reset. Without a main task nothing changes.
     */
    method MarkMainTaskDone()
      modifies this, mainTask, timer
      ensures tasks == old(tasks)
      ensures old(mainTask) == null ==> mainTask == null && timer.State() == old(timer.State())
      ensures old(mainTask) != null ==> old(mainTask).Value() == old(mainTask.Value()).(done := true) &&
                                        mainTask == null && timer.State() == Fresh
      ensures Valid()
    {
      if mainTask == null {
        return;
      }
      mainTask.done := true;
      mainTask := null;
      timer.Reset();
    }

    /**
     * `toggleSubtaskDone(index)`: with a main task and a step at `index`, that
     * step is ticked or unticked; when that leaves a main task whose steps are
     * all done, it is marked done at once.
     */
    method ToggleSubtaskDone(index: int)
      modifies this, mainTask, timer
      ensures tasks == old(tasks)
      ensures old(mainTask) == null || !(0 <= index < |old(mainTask.subtasks)|) ==>
                mainTask == old(mainTask) && (mainTask != null ==> mainTask.Value() == old(mainTask.Value())) &&
                timer.State() == old(timer.State())
      ensures old(mainTask) != null && 0 <= index < |old(mainTask.subtasks)| ==>
                var steps := Toggled(old(mainTask.subtasks), index);
                var auto := ShouldAutoComplete(steps, old(mainTask.done));
                old(mainTask).subtasks == steps &&
                old(mainTask).done == (old(mainTask.done) || auto) &&
                old(mainTask).Value() == old(mainTask.Value()).(subtasks := steps, done := old(mainTask).done) &&
                (auto ==> mainTask == null && timer.State() == Fresh) &&
                (!auto ==> mainTask == old(mainTask) && timer.State() == old(timer.State()))
      ensures old(Valid()) ==> Valid()
    {
      if mainTask != null && 0 <= index < |mainTask.subtasks| {
        mainTask.subtasks := Toggled(mainTask.subtasks, index);
        if |mainTask.subtasks| > 0 && AllDone(mainTask.subtasks) && !mainTask.done {
          MarkMainTaskDone();
        }
      }
    }

    /** `deleteSubtask(index)`: with a main task and a step at `index`, that step is removed. */
    method DeleteSubtask(index: int)
      modifies mainTask
      ensures mainTask != null && 0 <= index < |old(mainTask.subtasks)| ==>
                mainTask.Value() == old(mainTask.Value()).(subtasks := Without(old(mainTask.subtasks), index))
      ensures mainTask == null || !(0 <= index < |old(mainTask.subtasks)|) ==>
                mainTask == null || mainTask.Value() == old(mainTask.Value())
      ensures old(Valid()) ==> Valid()
    {
      if mainTask != null && 0 <= index < |mainTask.subtasks| {
        mainTask.subtasks := Without(mainTask.subtasks, index);
      }
    }

    /**
     * What `renderTasksOnRightPanel` shows for the current list, as written:
     * the message exactly when no task passes the filter; otherwise the drawn
     * tasks, a list that is empty when every listed task is skipped.
     */
    function RightPanel(): (p: Panel)
      reads this, set t | t in tasks
      ensures p == NoTaskMessage <==> forall i :: 0 <= i < |tasks| ==> !Listed(tasks[i].Value())
      ensures p.Items? ==> forall v :: v in p.items <==> Shown(v) && exists i :: 0 <= i < |tasks| && tasks[i].Value() == v
    {
      var vs := Values(tasks);
      PanelAsWrittenMessage(vs);
      PanelAsWritten(vs)
    }
  }
}
