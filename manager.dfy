/**
 * The task store held by the `TaskManager` window: the list of tasks, the
 * status filter chosen in the dropdown and the operations the window's
 * controls call. Widgets, warnings and the redraw after each change are not
 * modelled; the file write after each change is recorded as `saved`.
 */
module Manager {
  import opened Text
  import opened Tasks
  import opened Display
  import opened Persistence

  datatype Error =
    | BlankText    // the entry held only whitespace
    | IndexError   // the position is past the end of the list

  datatype Outcome = Ok | Failed(error: Error)

  class TaskManager {
    /** The tasks, in the order they were added. */
    var tasks: seq<Task>
    /** The status chosen in the filter dropdown; None stands for "All". */
    var filterStatus: Option<Status>
    /** What the last save wrote to the task file; None before the first save. */
    var saved: Option<seq<Task>>

    /** Opening the window: the list is loaded from the file and the filter is "All". */
    constructor (file: StoredFile, parse: string -> Option<seq<Task>>)
      ensures tasks == LoadTasks(file, parse)
      ensures filterStatus == None && saved == None
    {
      tasks := LoadTasks(file, parse);
      filterStatus := None;
      saved := None;
    }

    /**
     * The Add button: a blank entry is refused with a warning; otherwise the
     * stripped text is appended as an Open task of the chosen priority and
     * the list is saved.
     */
    method AddTask(entry: string, priority: Priority) returns (r: Outcome)
      modifies this`tasks, this`saved
      ensures r == (if IsBlank(entry) then Failed(BlankText) else Ok)
      ensures r.Failed? ==> tasks == old(tasks) && saved == old(saved)
      ensures r.Ok? ==>
        && |tasks| == |old(tasks)| + 1
        && tasks[..|old(tasks)|] == old(tasks)
        && tasks[|old(tasks)|] == Task(Strip(entry), Open, Some(priority))
        && IsTrimmedText(tasks[|old(tasks)|].text)
        && saved == Some(tasks)
      ensures WellFormed(old(tasks)) ==> WellFormed(tasks)
    {
      var text := Strip(entry);
      if text != [] {
        tasks := tasks + [Task(text, Open, Some(priority))];
        saved := Some(tasks);
        r := Ok;
      } else {
        r := Failed(BlankText);
      }
    }

    /** A choice in the filter dropdown; "All" removes the filter. */
    method OnFilterChange(value: string)
      requires value in FilterChoices
      modifies this`filterStatus
      ensures filterStatus.None? <==> value == "All"
      ensures filterStatus.Some? ==> StatusLabel(filterStatus.value) == value
    {
      filterStatus := if value == "All" then None else ParseStatus(value);
    }

    /**
     * A row's status dropdown: the task at `index` takes the new status and
     * nothing else in the list changes.
     */
    method UpdateStatus(index: nat, newStatus: Status) returns (r: Outcome)
      modifies this`tasks, this`saved
      ensures r == (if index < |old(tasks)| then Ok else Failed(IndexError))
      ensures r.Failed? ==> tasks == old(tasks) && saved == old(saved)
      ensures r.Ok? ==>
        && |tasks| == |old(tasks)|
        && tasks[index] == old(tasks)[index].(status := newStatus)
        && (forall j :: 0 <= j < |tasks| && j != index ==> tasks[j] == old(tasks)[j])
        && saved == Some(tasks)
      ensures WellFormed(old(tasks)) ==> WellFormed(tasks)
    {
      if index < |tasks| {
        tasks := tasks[index := tasks[index].(status := newStatus)];
        saved := Some(tasks);
        r := Ok;
      } else {
        r := Failed(IndexError);
      }
    }

    /**
     * A row's Delete button: the task at `index` is removed and every later
     * task moves down one position.
     */
    method DeleteTask(index: nat) returns (r: Outcome)
      modifies this`tasks, this`saved
      ensures r == (if index < |old(tasks)| then Ok else Failed(IndexError))
      ensures r.Failed? ==> tasks == old(tasks) && saved == old(saved)
      ensures r.Ok? ==>
        && |tasks| == |old(tasks)| - 1
        && (forall j :: 0 <= j < index ==> tasks[j] == old(tasks)[j])
        && (forall j :: index < j < |old(tasks)| ==> tasks[j - 1] == old(tasks)[j])
        && saved == Some(tasks)
      ensures WellFormed(old(tasks)) ==> WellFormed(tasks)
    {
      if index < |tasks| {
        tasks := tasks[..index] + tasks[index + 1..];
        saved := Some(tasks);
        r := Ok;
      } else {
        r := Failed(IndexError);
      }
    }

    /**
     * The Save button of the edit window opened for position `index`: a blank
     * entry does nothing (the window stays open); otherwise the task at
     * `index` gets the stripped text and keeps its status and priority.
     */
    method SaveEdit(index: nat, entry: string) returns (r: Outcome)
      modifies this`tasks, this`saved
      ensures r == (if IsBlank(entry) then Failed(BlankText)
                    else if index < |old(tasks)| then Ok
                    else Failed(IndexError))
      ensures r.Failed? ==> tasks == old(tasks) && saved == old(saved)
      ensures r.Ok? ==>
        && |tasks| == |old(tasks)|
        && tasks[index] == old(tasks)[index].(text := Strip(entry))
        && IsTrimmedText(tasks[index].text)
        && (forall j :: 0 <= j < |tasks| && j != index ==> tasks[j] == old(tasks)[j])
        && saved == Some(tasks)
      ensures WellFormed(old(tasks)) ==> WellFormed(tasks)
    {
      var text := Strip(entry);
      if text == [] {
        r := Failed(BlankText);
      } else if index < |tasks| {
        WellFormedReplace(tasks, index, tasks[index].(text := text));
        tasks := tasks[index := tasks[index].(text := text)];
        saved := Some(tasks);
        r := Ok;
      } else {
        r := Failed(IndexError);
      }
    }

    /**
     * Redrawing the window: the counters and progress percentage over the
     * whole list, and the rows that pass the filter, each with its position
     * in the full list.
     */
    method DisplayTasks() returns (counters: Counters, rows: seq<Row>)
      ensures counters == Summarize(tasks)
      ensures rows == Shown(tasks, filterStatus)
    {
      var total := |tasks|;
      var done := CountStatus(tasks, Done);
      counters := Counters(total, done, total - done, Percent(done, total));
      rows := [];
      for index := 0 to |tasks|
        invariant rows == Shown(tasks[..index], filterStatus)
      {
        var task := tasks[index];
        assert tasks[..index + 1] == tasks[..index] + [task];
        assert tasks[..index + 1][..index] == tasks[..index];
        if filterStatus.Some? && task.status != filterStatus.value {
          continue;
        }
        rows := rows + [RowOf(index, task)];
      }
      assert tasks[..|tasks|] == tasks;
    }
  }

  /**
   * The session of adding two tasks and finishing the first, starting
   * without a task file.
   */
  method ExampleSession() {
    var m := new TaskManager(Missing, _ => None);
    assert "Buy milk"[0] == 'B';
    StripOfTrimmed("Buy milk");
    var r := m.AddTask("Buy milk", Medium);
    assert "Walk dog"[0] == 'W';
    StripOfTrimmed("Walk dog");
    r := m.AddTask("Walk dog", High);
    assert m.tasks == [Task("Buy milk", Open, Some(Medium)), Task("Walk dog", Open, Some(High))];
    r := m.UpdateStatus(0, Done);
    assert m.tasks == [Task("Buy milk", Done, Some(Medium)), Task("Walk dog", Open, Some(High))];
    ExampleRedraw(m);
  }

  /** Redrawing after that session, first with no filter and then with the filter on Done. */
  method ExampleRedraw(m: TaskManager)
    requires m.tasks == [Task("Buy milk", Done, Some(Medium)), Task("Walk dog", Open, Some(High))]
    requires m.filterStatus == None
    modifies m`filterStatus
  {
    var counters, rows := m.DisplayTasks();
    assert CountStatus(m.tasks, Done) == 1 by {
      assert m.tasks[..1] == [Task("Buy milk", Done, Some(Medium))];
      assert m.tasks[..1][..0] == [];
    }
    assert Percent(1, 2) == 50;
    assert counters == Counters(2, 1, 1, 50);
    m.OnFilterChange("Done");
    counters, rows := m.DisplayTasks();
    ShownCount(m.tasks, Done);
    assert |rows| == 1;
    assert rows[0].index == 0;
    assert rows == [Row(0, "Buy milk", Done, Medium)];
  }

  /**
   * An edit window keeps the position it was opened for. When an earlier
   * task is deleted while it is open, saving overwrites the task that moved
   * into that position.
   */
  method StaleEditSession() {
    var m := new TaskManager(Missing, _ => None);
    assert "a"[0] == 'a' && "b"[0] == 'b' && "c"[0] == 'c' && "z"[0] == 'z';
    StripOfTrimmed("a");
    StripOfTrimmed("b");
    StripOfTrimmed("c");
    StripOfTrimmed("z");
    var r := m.AddTask("a", Low);
    assert m.tasks == [Task("a", Open, Some(Low))];
    r := m.AddTask("b", Low);
    assert m.tasks == [Task("a", Open, Some(Low)), Task("b", Open, Some(Low))];
    r := m.AddTask("c", Low);
    assert m.tasks == [Task("a", Open, Some(Low)), Task("b", Open, Some(Low)), Task("c", Open, Some(Low))];
    // the edit window is opened for "b", at position 1
    r := m.DeleteTask(0);
    assert m.tasks == [Task("b", Open, Some(Low)), Task("c", Open, Some(Low))];
    r := m.SaveEdit(1, "z");
    assert r == Ok;
    assert m.tasks == [Task("b", Open, Some(Low)), Task("z", Open, Some(Low))];
  }
}
