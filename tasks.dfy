/** Background tasks: the queue of tasks with its id allocation, the interval
    scheduler that enqueues due tasks, the first-in first-out processing of
    the queue, and the queue queries and removal. What a task does when run
    is an input (its outcome). */
module Tasks {
  import opened Common
  import Numbers

  /** The classes of tasks, with their constructor arguments. */
  datatype TaskKind =
    | AutoSearchIssue(volumeId: int, issueId: int)
    | AutoSearchVolume(volumeId: int)
    | RefreshAndScanVolume(volumeId: int)
    | UpdateAll
    | SearchAll

  /** The `action` attribute of each task class. */
  function Action(k: TaskKind): string {
    match k
    case AutoSearchIssue(_, _) => "auto_search_issue"
    case AutoSearchVolume(_) => "auto_search"
    case RefreshAndScanVolume(_) => "refresh_and_scan"
    case UpdateAll => "update_all"
    case SearchAll => "search_all"
  }

  /** The `display_title` attribute of each task class. */
  function DisplayTitle(k: TaskKind): string {
    match k
    case AutoSearchIssue(_, _) => "Auto Search"
    case AutoSearchVolume(_) => "Auto Search"
    case RefreshAndScanVolume(_) => "Refresh And Scan"
    case UpdateAll => "Update All"
    case SearchAll => "Search All"
  }

  /** Whether the results of a task are downloads (category 'download'). */
  predicate IsDownloadTask(k: TaskKind) {
    k.AutoSearchIssue? || k.AutoSearchVolume? || k.SearchAll?
  }

  /** `task_library[action]()`: an unknown action is a `KeyError`, and the
      classes whose constructor needs arguments raise `TypeError`. */
  function NewTask(action: string): (r: Result<TaskKind>)
    ensures r.Ok? ==> Action(r.value) == action && (r.value == UpdateAll || r.value == SearchAll)
    ensures r == Err(KeyError) <==>
      action !in {"auto_search_issue", "auto_search", "refresh_and_scan", "update_all", "search_all"}
  {
    if action == "update_all" then Ok(UpdateAll)
    else if action == "search_all" then Ok(SearchAll)
    else if action == "auto_search_issue" || action == "auto_search" || action == "refresh_and_scan" then Err(TypeError)
    else Err(KeyError)
  }

  /** A task: its kind and the message it shows. */
  datatype Task = Task(kind: TaskKind, message: string)

  datatype Status = TaskQueued | TaskRunning

  /** An entry of the queue. */
  datatype QueueEntry = QueueEntry(task: Task, id: int, status: Status)

  /** `_format_entry`: the form the queries return. */
  datatype TaskView = TaskView(id: int, action: string, displayTitle: string, status: Status, message: string)

  function View(e: QueueEntry): TaskView {
    TaskView(e.id, Action(e.task.kind), DisplayTitle(e.task.kind), e.status, e.task.message)
  }

  /** A download a task hands to the download handler: a link, the volume
      and, for an issue search, the issue. */
  datatype DownloadRequest = DownloadRequest(link: string, volumeId: int, issueId: Option<int>)

  /** A row of `task_history`. */
  datatype HistoryRow = HistoryRow(action: string, displayTitle: string, runAt: int)

  /** A row of `task_intervals`. */
  datatype IntervalEntry = IntervalEntry(name: string, interval: int, nextRun: int)

  /** The ids of a queue. */
  function Ids(queue: seq<QueueEntry>): (ids: seq<int>)
    ensures |ids| == |queue| && forall i | 0 <= i < |queue| :: ids[i] == queue[i].id
  {
    seq(|queue|, i requires 0 <= i < |queue| => queue[i].id)
  }

  /** Ids are positive and increase from the head of the queue to its end. */
  predicate IdsIncreasing(queue: seq<QueueEntry>) {
    && (forall i | 0 <= i < |queue| :: queue[i].id > 0)
    && (forall i, j | 0 <= i < j < |queue| :: queue[i].id < queue[j].id)
  }

  /** The id `add` gives: one more than the id of the last entry, or 1. */
  function NextId(queue: seq<QueueEntry>): int {
    if |queue| == 0 then 1 else queue[|queue| - 1].id + 1
  }

  /** The queue after `add`. */
  function Added(queue: seq<QueueEntry>, task: Task): seq<QueueEntry> {
    queue + [QueueEntry(task, NextId(queue), TaskQueued)]
  }

  /** The new id is larger than every id in the queue, so it is fresh, and
      the ids keep increasing. */
  lemma AddedFresh(queue: seq<QueueEntry>, task: Task)
    requires IdsIncreasing(queue)
    ensures forall i | 0 <= i < |queue| :: queue[i].id < NextId(queue)
    ensures NextId(queue) !in Ids(queue)
    ensures IdsIncreasing(Added(queue, task))
  {
    if |queue| > 0 {
      assert forall i | 0 <= i < |queue| :: queue[i].id <= queue[|queue| - 1].id;
    }
  }

  /** The queue after adding several tasks in order. */
  function AddedAll(queue: seq<QueueEntry>, tasks: seq<Task>): seq<QueueEntry>
    decreases |tasks|
  {
    if |tasks| == 0 then queue else AddedAll(Added(queue, tasks[0]), tasks[1..])
  }

  /** Adding one more task after several is the same as adding them all. */
  lemma {:induction false} AddedAllSnoc(queue: seq<QueueEntry>, tasks: seq<Task>, t: Task)
    ensures AddedAll(queue, tasks + [t]) == Added(AddedAll(queue, tasks), t)
    decreases |tasks|
  {
    if |tasks| == 0 {
      assert AddedAll(Added(queue, t), []) == Added(queue, t);
    } else {
      assert (tasks + [t])[1..] == tasks[1..] + [t];
      AddedAllSnoc(Added(queue, tasks[0]), tasks[1..], t);
    }
  }

  /** Adding tasks keeps the queue ahead of them, appends one queued entry
      per task, and keeps the ids increasing. */
  lemma {:induction false} AddedAllShape(queue: seq<QueueEntry>, tasks: seq<Task>)
    requires IdsIncreasing(queue)
    ensures IdsIncreasing(AddedAll(queue, tasks))
    ensures |AddedAll(queue, tasks)| == |queue| + |tasks|
    ensures AddedAll(queue, tasks)[..|queue|] == queue
    ensures forall i | 0 <= i < |tasks| ::
      AddedAll(queue, tasks)[|queue| + i].task == tasks[i] && AddedAll(queue, tasks)[|queue| + i].status == TaskQueued
    decreases |tasks|
  {
    if |tasks| > 0 {
      var next := Added(queue, tasks[0]);
      AddedFresh(queue, tasks[0]);
      AddedAllShape(next, tasks[1..]);
      var r := AddedAll(queue, tasks);
      assert r == AddedAll(next, tasks[1..]);
      assert r[..|queue|] == next[..|next|][..|queue|];
      forall i | 0 <= i < |tasks|
        ensures r[|queue| + i].task == tasks[i] && r[|queue| + i].status == TaskQueued
      {
        if i > 0 {
          assert r[|next| + (i - 1)] == r[|queue| + i];
        } else {
          assert r[|queue|] == r[..|next|][|queue|];
        }
      }
    }
  }

  /** The position of the first entry of the queue from `from` on with the
      id. */
  function FindFrom(queue: seq<QueueEntry>, id: int, from: nat): (r: Option<nat>)
    requires from <= |queue|
    ensures r.Some? ==> from <= r.value < |queue| && queue[r.value].id == id
    ensures r.Some? ==> forall j | from <= j < r.value :: queue[j].id != id
    ensures r.None? <==> forall j | from <= j < |queue| :: queue[j].id != id
    decreases |queue| - from
  {
    if from == |queue| then None
    else if queue[from].id == id then Some(from)
    else FindFrom(queue, id, from + 1)
  }

  /** The queue without the entry at `k`. */
  function PopAt(queue: seq<QueueEntry>, k: nat): (r: seq<QueueEntry>)
    requires k < |queue|
    ensures |r| == |queue| - 1
  {
    queue[..k] + queue[k + 1..]
  }

  /** Popping an entry keeps the ids increasing and removes exactly that
      entry's id. */
  lemma PopAtIds(queue: seq<QueueEntry>, k: nat)
    requires k < |queue| && IdsIncreasing(queue)
    ensures IdsIncreasing(PopAt(queue, k))
    ensures forall id :: id in Ids(PopAt(queue, k)) <==> id in Ids(queue) && id != queue[k].id
  {
    PopAtIncreasing(queue, k);
    PopAtDropsId(queue, k);
  }

  /** The entries after a pop: those before the popped one, then those
      after it. */
  lemma PopAtIndex(queue: seq<QueueEntry>, k: nat)
    requires k < |queue|
    ensures forall i | 0 <= i < |queue| - 1 :: PopAt(queue, k)[i] == if i < k then queue[i] else queue[i + 1]
  {
    var r := PopAt(queue, k);
    forall i | 0 <= i < |r| ensures r[i] == if i < k then queue[i] else queue[i + 1] {
      if i < k {
        assert r[i] == queue[..k][i];
      } else {
        assert r[i] == queue[k + 1..][i - k];
      }
    }
  }

  /** Popping keeps the ids increasing. */
  lemma PopAtIncreasing(queue: seq<QueueEntry>, k: nat)
    requires k < |queue| && IdsIncreasing(queue)
    ensures IdsIncreasing(PopAt(queue, k))
  {
    var r := PopAt(queue, k);
    PopAtIndex(queue, k);
    forall i, j | 0 <= i < j < |r| ensures r[i].id < r[j].id {
      assert r[i] == if i < k then queue[i] else queue[i + 1];
      assert r[j] == if j < k then queue[j] else queue[j + 1];
    }
  }

  /** Popping removes the popped entry's id, when ids are distinct, and no
      other. */
  lemma PopAtDropsId(queue: seq<QueueEntry>, k: nat)
    requires k < |queue| && IdsIncreasing(queue)
    ensures forall id :: id in Ids(PopAt(queue, k)) <==> id in Ids(queue) && id != queue[k].id
  {
    var r := PopAt(queue, k);
    PopAtIndex(queue, k);
    forall id | id in Ids(queue) && id != queue[k].id ensures id in Ids(r) {
      var i :| 0 <= i < |queue| && queue[i].id == id;
      if i < k {
        assert Ids(r)[i] == id;
      } else {
        assert Ids(r)[i - 1] == id;
      }
    }
    forall id | id in Ids(r) ensures id in Ids(queue) && id != queue[k].id {
      var i :| 0 <= i < |r| && r[i].id == id;
      if i < k {
        assert Ids(queue)[i] == id;
      } else {
        assert Ids(queue)[i + 1] == id;
      }
    }
  }

  /** `remove` as written pops, for a match at position `j >= 1` of the
      queue, the entry at `j - 1`: the entry in front of the match goes and
      the matching task stays. */
  lemma RemoveAsWrittenKeepsMatch(queue: seq<QueueEntry>, j: nat)
    requires IdsIncreasing(queue) && 1 <= j < |queue|
    ensures queue[j].id in Ids(PopAt(queue, j - 1))
    ensures queue[j - 1].id !in Ids(PopAt(queue, j - 1))
  {
    PopAtIds(queue, j - 1);
  }

  /** `RemoveAsWrittenKeepsMatch` on a queue of two tasks: removing the second
      pops the head, which is running. */
  lemma RemoveAsWrittenPopsHead(a: Task, b: Task)
    ensures var queue := [QueueEntry(a, 1, TaskRunning), QueueEntry(b, 2, TaskQueued)];
      PopAt(queue, 0) == [QueueEntry(b, 2, TaskQueued)] && 2 in Ids(PopAt(queue, 0))
  {
    var queue := [QueueEntry(a, 1, TaskRunning), QueueEntry(b, 2, TaskQueued)];
    assert Ids(PopAt(queue, 0))[0] == 2;
  }

  /** An interval task is due when its next run is before now. */
  predicate Due(e: IntervalEntry, now: real) {
    (e.nextRun as real) < now
  }

  /** A due task's next run becomes `round(now + interval)`. */
  function Rescheduled(e: IntervalEntry, now: real): (r: IntervalEntry)
    ensures r.name == e.name && r.interval == e.interval
    ensures Due(e, now) ==> r.nextRun == Numbers.Round(now + e.interval as real)
    ensures !Due(e, now) ==> r == e
  {
    if Due(e, now) then e.(nextRun := Numbers.Round(now + e.interval as real)) else e
  }

  function RescheduledAll(intervals: seq<IntervalEntry>, now: real): (r: seq<IntervalEntry>)
    ensures |r| == |intervals| && forall i | 0 <= i < |r| :: r[i] == Rescheduled(intervals[i], now)
  {
    seq(|intervals|, i requires 0 <= i < |intervals| => Rescheduled(intervals[i], now))
  }

  /** Every due interval task can be built. */
  predicate AllDueBuildable(intervals: seq<IntervalEntry>, now: real) {
    forall i | 0 <= i < |intervals| && Due(intervals[i], now) :: NewTask(intervals[i].name).Ok?
  }

  /** The tasks the due entries enqueue, in order, each with an empty
      message. */
  function DueTasks(intervals: seq<IntervalEntry>, now: real): seq<Task>
    requires AllDueBuildable(intervals, now)
    decreases |intervals|
  {
    if |intervals| == 0 then []
    else
      var last := intervals[|intervals| - 1];
      var front := intervals[..|intervals| - 1];
      assert AllDueBuildable(front, now) by {
        forall i | 0 <= i < |front| && Due(front[i], now) ensures NewTask(front[i].name).Ok? {
          assert front[i] == intervals[i];
        }
      }
      DueTasks(front, now) + (if Due(last, now) then [Task(NewTask(last.name).value, "")] else [])
  }

  /** Only due tasks are enqueued, and one per due entry. */
  lemma {:induction false} DueTasksCount(intervals: seq<IntervalEntry>, now: real)
    requires AllDueBuildable(intervals, now)
    ensures |DueTasks(intervals, now)| <= |intervals|
    ensures (forall i | 0 <= i < |intervals| :: !Due(intervals[i], now)) ==> DueTasks(intervals, now) == []
    decreases |intervals|
  {
    if |intervals| > 0 {
      var front := intervals[..|intervals| - 1];
      assert forall i | 0 <= i < |front| :: front[i] == intervals[i];
      DueTasksCount(front, now);
    }
  }

  /** How many of `n` downloads reach `download_handler.add` when the one
      at index `failsAt`, if any, raises. */
  function AddsMade(n: nat, failsAt: Option<nat>): (r: nat)
    ensures r <= n
    ensures failsAt.None? ==> r == n
    ensures failsAt.Some? && failsAt.value < n ==> r == failsAt.value + 1
  {
    if failsAt.Some? && failsAt.value < n then failsAt.value + 1 else n
  }

  /** One entry further through the interval pass: the prefix handled
      grows by the entry, rescheduled if due, and its task if due. */
  lemma ScheduleStep(intervals: seq<IntervalEntry>, now: real, i: nat, queue: seq<QueueEntry>)
    requires i < |intervals| && AllDueBuildable(intervals[..i], now)
    requires Due(intervals[i], now) ==> NewTask(intervals[i].name).Ok?
    ensures AllDueBuildable(intervals[..i + 1], now)
    ensures RescheduledAll(intervals[..i + 1], now) + intervals[i + 1..] ==
      (RescheduledAll(intervals[..i], now) + intervals[i..])[i := Rescheduled(intervals[i], now)]
    ensures AddedAll(queue, DueTasks(intervals[..i + 1], now)) ==
      if Due(intervals[i], now)
      then Added(AddedAll(queue, DueTasks(intervals[..i], now)), Task(NewTask(intervals[i].name).value, ""))
      else AddedAll(queue, DueTasks(intervals[..i], now))
  {
    var front := intervals[..i + 1];
    assert front[..i] == intervals[..i];
    assert front[|front| - 1] == intervals[i];
    assert AllDueBuildable(front, now) by {
      forall j | 0 <= j < |front| && Due(front[j], now) ensures NewTask(front[j].name).Ok? {
        if j < i {
          assert front[j] == intervals[..i][j];
        }
      }
    }
    if Due(intervals[i], now) {
      AddedAllSnoc(queue, DueTasks(intervals[..i], now), Task(NewTask(intervals[i].name).value, ""));
    } else {
      assert DueTasks(front, now) == DueTasks(intervals[..i], now) + [];
      assert DueTasks(front, now) == DueTasks(intervals[..i], now);
    }
  }

  class TaskHandler {
    /** The queue of tasks; its head is being run. */
    var queue: seq<QueueEntry>
    /** `task_intervals`, in the order of the table. */
    var intervals: seq<IntervalEntry>
    /** `task_history`. */
    var history: seq<HistoryRow>

    ghost predicate Valid()
      reads this
    {
      IdsIncreasing(queue)
    }

    constructor(initialIntervals: seq<IntervalEntry>)
      ensures Valid() && queue == [] && intervals == initialIntervals && history == []
    {
      queue := [];
      intervals := initialIntervals;
      history := [];
    }

    /** `add`: a new task is appended as queued under the next id, which is
        returned. */
    method Add(task: Task) returns (id: int)
      requires Valid()
      modifies this
      ensures Valid()
      ensures id == NextId(old(queue)) && queue == Added(old(queue), task)
      ensures id !in Ids(old(queue)) && id > 0
      ensures intervals == old(intervals) && history == old(history)
    {
      AddedFresh(queue, task);
      id := NextId(queue);
      queue := queue + [QueueEntry(task, id, TaskQueued)];
    }

    /** `get_all`: every entry of the queue, formatted, in queue order. */
    function GetAll(): (r: seq<TaskView>)
      reads this
      ensures |r| == |queue|
      ensures forall i | 0 <= i < |r| :: r[i].id == queue[i].id && r[i].status == queue[i].status
    {
      seq(|queue|, i reads this requires 0 <= i < |queue| => View(queue[i]))
    }

    /** `get_one` as written: the entry found in `get_all()` is formatted a
        second time, and a formatted entry has no 'task' key, so every
        known id raises `KeyError`; an unknown id raises `TaskNotFound`. */
    method GetOneAsWritten(taskId: int) returns (r: Result<TaskView>)
      ensures r.Err?
      ensures r.error == KeyError <==> taskId in Ids(queue)
      ensures r.error != KeyError ==> r.error == TaskNotFound
    {
      var tasks := GetAll();
      var i := 0;
      while i < |tasks|
        invariant 0 <= i <= |tasks|
        invariant forall j | 0 <= j < i :: queue[j].id != taskId
      {
        if tasks[i].id == taskId {
          return Err(KeyError);
        }
        i := i + 1;
      }
      return Err(TaskNotFound);
    }

    /** `get_one` returning the found entry: the first entry with the id, or
        `TaskNotFound`. */
    method GetOne(taskId: int) returns (r: Result<TaskView>)
      ensures r.Ok? <==> taskId in Ids(queue)
      ensures r.Ok? ==> r.value in GetAll() && r.value.id == taskId
      ensures r.Err? ==> r.error == TaskNotFound
    {
      var tasks := GetAll();
      var i := 0;
      while i < |tasks|
        invariant 0 <= i <= |tasks|
        invariant forall j | 0 <= j < i :: queue[j].id != taskId
      {
        if tasks[i].id == taskId {
          return Ok(tasks[i]);
        }
        i := i + 1;
      }
      return Err(TaskNotFound);
    }

    /** `remove` as written: the search runs over `queue[1:]` but pops the
        slice index from the full queue, so a match at position `j` pops the
        entry at `j - 1`; the log line after it then reads an attribute the
        tasks do not have and raises `AttributeError`. Without a match the
        head's id is `TaskNotDeletable`, any other id `TaskNotFound`, and an
        empty queue `IndexError`. */
    method RemoveAsWritten(taskId: int) returns (r: Result<()>)
      requires Valid()
      modifies this
      ensures Valid() && r.Err?
      ensures intervals == old(intervals) && history == old(history)
      ensures |old(queue)| > 0 && FindFrom(old(queue), taskId, 1).Some? ==>
        queue == PopAt(old(queue), FindFrom(old(queue), taskId, 1).value - 1) && r.error == AttributeError
      ensures |old(queue)| > 0 && FindFrom(old(queue), taskId, 1).None? ==>
        queue == old(queue) && r.error == (if old(queue)[0].id == taskId then TaskNotDeletable else TaskNotFound)
      ensures |old(queue)| == 0 ==> queue == old(queue) && r.error == IndexError
    {
      var i := 0;
      while i + 1 < |queue|
        invariant 0 <= i && (|queue| == 0 || i + 1 <= |queue|)
        invariant forall j | 1 <= j < i + 1 && j < |queue| :: queue[j].id != taskId
      {
        if queue[i + 1].id == taskId {
          PopAtIds(queue, i);
          queue := PopAt(queue, i);
          return Err(AttributeError);
        }
        i := i + 1;
      }
      if |queue| == 0 {
        return Err(IndexError);
      }
      if queue[0].id == taskId {
        return Err(TaskNotDeletable);
      }
      return Err(TaskNotFound);
    }

    /** `remove` popping the matching entry itself: any entry but the head
        can be removed; the head is `TaskNotDeletable` and an unknown id
        `TaskNotFound` (`IndexError` on an empty queue as before). */
    method Remove(taskId: int) returns (r: Result<()>)
      requires Valid()
      modifies this
      ensures Valid()
      ensures intervals == old(intervals) && history == old(history)
      ensures r.Ok? <==> |old(queue)| > 1 && taskId in Ids(old(queue)[1..])
      ensures r.Ok? ==> taskId !in Ids(queue)
      ensures r.Ok? ==> forall id :: id in Ids(queue) <==> id in Ids(old(queue)) && id != taskId
      ensures r.Ok? ==> |queue| > 0 && queue[0] == old(queue)[0]
      ensures r.Ok? ==> |old(queue)| > 1 && queue == PopAt(old(queue), FindFrom(old(queue), taskId, 1).value)
      ensures r.Err? ==> queue == old(queue)
      ensures r.Err? && |old(queue)| > 0 ==>
        r.error == (if old(queue)[0].id == taskId then TaskNotDeletable else TaskNotFound)
      ensures |old(queue)| == 0 ==> r == Err(IndexError)
    {
      var i := 1;
      while i < |queue|
        invariant 1 <= i && (|queue| == 0 || i <= |queue|)
        invariant forall j | 1 <= j < i && j < |queue| :: queue[j].id != taskId
      {
        if queue[i].id == taskId {
          assert FindFrom(queue, taskId, 1) == Some(i);
          PopAtIds(queue, i);
          queue := PopAt(queue, i);
          return Ok(());
        }
        i := i + 1;
      }
      if |queue| == 0 {
        return Err(IndexError);
      }
      assert forall id :: id in Ids(queue[1..]) ==> exists j | 1 <= j < |queue| :: queue[j].id == id by {
        forall id | id in Ids(queue[1..]) ensures exists j | 1 <= j < |queue| :: queue[j].id == id {
          var k :| 0 <= k < |queue| - 1 && Ids(queue[1..])[k] == id;
          assert queue[k + 1].id == id;
        }
      }
      if queue[0].id == taskId {
        return Err(TaskNotDeletable);
      }
      return Err(TaskNotFound);
    }

    /** The interval pass of `handle`: in table order, every due task is
        built, enqueued and rescheduled to `round(now + interval)`. A due
        entry whose task cannot be built raises, with the entries before it
        already handled. */
    method ScheduleDue(now: real) returns (r: Result<()>)
      requires Valid()
      modifies this
      ensures Valid() && history == old(history) && |intervals| == |old(intervals)|
      ensures r.Ok? <==> AllDueBuildable(old(intervals), now)
      ensures r.Ok? ==>
        intervals == RescheduledAll(old(intervals), now) && queue == AddedAll(old(queue), DueTasks(old(intervals), now))
      ensures r.Err? ==> exists k | 0 <= k < |old(intervals)| ::
        && AllDueBuildable(old(intervals)[..k], now)
        && Due(old(intervals)[k], now) && NewTask(old(intervals)[k].name) == Err(r.error)
        && intervals == RescheduledAll(old(intervals)[..k], now) + old(intervals)[k..]
        && queue == AddedAll(old(queue), DueTasks(old(intervals)[..k], now))
    {
      var i := 0;
      while i < |intervals|
        invariant 0 <= i <= |intervals| == |old(intervals)|
        invariant Valid() && history == old(history)
        invariant AllDueBuildable(old(intervals)[..i], now)
        invariant intervals == RescheduledAll(old(intervals)[..i], now) + old(intervals)[i..]
        invariant queue == AddedAll(old(queue), DueTasks(old(intervals)[..i], now))
      {
        assert intervals[i] == old(intervals)[i];
        var step := ScheduleOne(i, now);
        if step.Err? {
          r := step;
          assert old(intervals)[..i] + old(intervals)[i..] == old(intervals);
          return;
        }
        ScheduleStep(old(intervals), now, i, old(queue));
        i := i + 1;
      }
      assert old(intervals)[..i] == old(intervals);
      r := Ok(());
    }

    /** One turn of the scheduling loop: a due interval task is built, added
        to the queue and rescheduled; one that is not due is left alone. */
    method ScheduleOne(i: nat, now: real) returns (r: Result<()>)
      requires Valid() && i < |intervals|
      modifies this
      ensures Valid() && history == old(history)
      ensures r.Ok? <==> (Due(old(intervals)[i], now) ==> NewTask(old(intervals)[i].name).Ok?)
      ensures r.Err? ==> NewTask(old(intervals)[i].name) == Err(r.error)
      ensures r.Err? ==> intervals == old(intervals) && queue == old(queue)
      ensures r.Ok? ==> intervals == old(intervals)[i := Rescheduled(old(intervals)[i], now)]
      ensures r.Ok? && Due(old(intervals)[i], now) ==>
        queue == Added(old(queue), Task(NewTask(old(intervals)[i].name).value, ""))
      ensures r.Ok? && !Due(old(intervals)[i], now) ==> queue == old(queue)
    {
      var e := intervals[i];
      if Due(e, now) {
        var kind := NewTask(e.name);
        if kind.Err? {
          return Err(kind.error);
        }
        var _ := Add(Task(kind.value, ""));
        intervals := intervals[i := Rescheduled(e, now)];
      } else {
        assert intervals[i := Rescheduled(e, now)] == intervals;
      }
      r := Ok(());
    }

    /** One queue step of `handle`: with an empty queue nothing happens;
        otherwise the head is marked running and run, then popped. A task
        that ran without raising is noted in the history at `now`, and the
        downloads of a download task are handed on, in order, until the
        hand-over at index `addFails` (if any) raises and ends the task. */
    method ProcessHead(outcome: Result<seq<DownloadRequest>>, addFails: Option<nat>, now: int)
      returns (handed: seq<DownloadRequest>)
      requires Valid()
      modifies this
      ensures Valid() && intervals == old(intervals)
      ensures |old(queue)| == 0 ==> queue == old(queue) && history == old(history) && handed == []
      ensures |old(queue)| > 0 ==>
        var task := old(queue)[0].task;
        && queue == old(queue)[1..]
        && history == old(history) + (if outcome.Ok? then [HistoryRow(Action(task.kind), DisplayTitle(task.kind), now)] else [])
        && handed == (if outcome.Ok? && IsDownloadTask(task.kind) then outcome.value[..AddsMade(|outcome.value|, addFails)] else [])
    {
      handed := [];
      if |queue| == 0 {
        return;
      }
      queue := queue[0 := queue[0].(status := TaskRunning)];
      var task := queue[0].task;
      if outcome.Ok? {
        history := history + [HistoryRow(Action(task.kind), DisplayTitle(task.kind), now)];
        if IsDownloadTask(task.kind) {
          var k := 0;
          while k < |outcome.value|
            invariant 0 <= k <= |outcome.value|
            invariant addFails.Some? ==> k <= addFails.value
            invariant handed == outcome.value[..k]
          {
            handed := handed + [outcome.value[k]];
            if addFails == Some(k) {
              assert handed == outcome.value[..k + 1];
              break;
            }
            k := k + 1;
          }
        }
      }
      queue := queue[1..];
    }
  }
}
