/**
 * What the window computes from the task list each time it redraws it: the
 * counters, the progress percentage and the rows shown under the status filter.
 */
module Display {
  import opened Tasks

  /** The number of tasks with status `s`. */
  function CountStatus(tasks: seq<Task>, s: Status): (n: nat)
    ensures n <= |tasks|
    ensures n == 0 <==> forall i :: 0 <= i < |tasks| ==> tasks[i].status != s
    ensures n == |tasks| <==> forall i :: 0 <= i < |tasks| ==> tasks[i].status == s
  {
    if tasks == [] then 0
    else
      var m := |tasks| - 1;
      CountStatus(tasks[..m], s) + Tally(tasks[m], s)
  }

  /** One for a task with status `s`, zero otherwise. */
  function Tally(t: Task, s: Status): nat {
    if t.status == s then 1 else 0
  }

  /** Counting distributes over concatenation. */
  lemma {:induction false} CountConcat(a: seq<Task>, b: seq<Task>, s: Status)
    ensures CountStatus(a + b, s) == CountStatus(a, s) + CountStatus(b, s)
  {
    if b == [] {
      assert a + b == a;
    } else {
      var m := |b| - 1;
      assert (a + b)[..|a + b| - 1] == a + b[..m];
      CountConcat(a, b[..m], s);
    }
  }

  /** Appending a task adds one to the count of its own status and nothing to the others. */
  lemma CountAppend(tasks: seq<Task>, t: Task, s: Status)
    ensures CountStatus(tasks + [t], s) == CountStatus(tasks, s) + Tally(t, s)
  {
    assert (tasks + [t])[..|tasks|] == tasks;
  }

  /** Removing the task at `k` takes one off the count of its status only. */
  lemma CountRemove(tasks: seq<Task>, k: nat, s: Status)
    requires k < |tasks|
    ensures CountStatus(tasks[..k] + tasks[k + 1..], s) == CountStatus(tasks, s) - Tally(tasks[k], s)
  {
    assert tasks == tasks[..k] + [tasks[k]] + tasks[k + 1..];
    CountConcat(tasks[..k] + [tasks[k]], tasks[k + 1..], s);
    CountConcat(tasks[..k], tasks[k + 1..], s);
    CountAppend(tasks[..k], tasks[k], s);
  }

  /** Replacing the task at `k` moves one unit of count from its old status to its new one. */
  lemma CountReplace(tasks: seq<Task>, k: nat, t: Task, s: Status)
    requires k < |tasks|
    ensures CountStatus(tasks[k := t], s) == CountStatus(tasks, s) - Tally(tasks[k], s) + Tally(t, s)
  {
    var u := tasks[k := t];
    assert tasks == tasks[..k] + [tasks[k]] + tasks[k + 1..];
    assert u == tasks[..k] + [t] + tasks[k + 1..];
    CountConcat(tasks[..k] + [tasks[k]], tasks[k + 1..], s);
    CountConcat(tasks[..k] + [t], tasks[k + 1..], s);
    CountAppend(tasks[..k], tasks[k], s);
    CountAppend(tasks[..k], t, s);
  }

  /** Every task has exactly one of the three statuses. */
  lemma {:induction false} CountPartition(tasks: seq<Task>)
    ensures CountStatus(tasks, Open) + CountStatus(tasks, InProgress) + CountStatus(tasks, Done) == |tasks|
  {
    if tasks != [] {
      CountPartition(tasks[..|tasks| - 1]);
    }
  }

  /**
   * The progress percentage: zero for an empty list, otherwise the share of
   * Done tasks in hundredths, rounded down.
   */
  function Percent(done: nat, total: nat): (p: nat)
    requires done <= total
    ensures p <= 100
    ensures total == 0 ==> p == 0
    ensures total > 0 ==> p * total <= done * 100 < (p + 1) * total
    ensures p == 100 <==> total > 0 && done == total
  {
    if total > 0 then
      var p := done * 100 / total;
      PercentBounds(done, total, p);
      p
    else 0
  }

  /** The arithmetic behind `Percent`. */
  lemma PercentBounds(done: nat, total: nat, p: nat)
    requires done <= total && total > 0
    requires p == done * 100 / total
    ensures p * total <= done * 100 < (p + 1) * total
    ensures p <= 100
    ensures p == 100 <==> done == total
  {
    var x := done * 100;
    assert x == p * total + x % total;
    assert 0 <= x % total < total;
    MulCancel(p, 100, total);
    if done == total {
      MulCancel(100, p + 1, total);
    } else {
      assert x < 100 * total;
    }
  }

  /** A product with a positive factor is monotone in the other factor. */
  lemma MulCancel(a: int, b: int, c: int)
    requires c > 0 && a * c <= b * c
    ensures a <= b
  {
    assert (b - a) * c == b * c - a * c;
  }

  /** The three counters of the window and its progress percentage. */
  datatype Counters = Counters(total: nat, done: nat, open: nat, percent: nat)

  /**
   * The counters for `tasks`. "Open" is everything not Done, so it includes
   * tasks in progress.
   */
  function Summarize(tasks: seq<Task>): (c: Counters)
    ensures c.total == |tasks| && c.done == CountStatus(tasks, Done)
    ensures c.done + c.open == c.total
    ensures c.open == CountStatus(tasks, Open) + CountStatus(tasks, InProgress)
    ensures c.percent <= 100
    ensures c.total > 0 ==> c.percent * c.total <= c.done * 100 < (c.percent + 1) * c.total
    ensures c.total == 0 ==> c == Counters(0, 0, 0, 0)
    ensures c.percent == 100 <==> tasks != [] && forall i :: 0 <= i < |tasks| ==> tasks[i].status == Done
  {
    var total := |tasks|;
    var done := CountStatus(tasks, Done);
    CountPartition(tasks);
    Counters(total, done, total - done, Percent(done, total))
  }

  /** One line of the task list: the task's position in the full list and what is shown of it. */
  datatype Row = Row(index: nat, text: string, status: Status, priority: Priority)

  /** The row for the task at position `index`; a missing priority is shown as Medium. */
  function RowOf(index: nat, t: Task): (r: Row)
    ensures r.index == index && r.text == t.text && r.status == t.status
    ensures t.priority.Some? ==> r.priority == t.priority.value
    ensures t.priority.None? ==> r.priority == Medium
  {
    Row(index, t.text, t.status, t.priority.GetOr(Medium))
  }

  /** Whether a task is shown under the filter; no filter ("All") shows everything. */
  predicate Passes(t: Task, filter: Option<Status>): (b: bool)
    ensures b <==> filter.GetOr(t.status) == t.status
  {
    filter.None? || t.status == filter.value
  }

  /**
   * The rows shown under `filter`, in list order. Each row keeps the index of
   * its task in the full list, which the row's edit, delete and status
   * controls use.
   */
  function Shown(tasks: seq<Task>, filter: Option<Status>): (rows: seq<Row>)
    ensures |rows| <= |tasks|
    ensures forall k :: 0 <= k < |rows| ==>
      rows[k].index < |tasks| && Passes(tasks[rows[k].index], filter)
      && rows[k] == RowOf(rows[k].index, tasks[rows[k].index])
    ensures forall k, l :: 0 <= k < l < |rows| ==> rows[k].index < rows[l].index
  {
    if tasks == [] then []
    else
      var m := |tasks| - 1;
      var before := Shown(tasks[..m], filter);
      if Passes(tasks[m], filter) then before + [RowOf(m, tasks[m])] else before
  }

  /** Every task that passes the filter is shown. */
  lemma {:induction false} ShownComplete(tasks: seq<Task>, filter: Option<Status>, i: nat)
    requires i < |tasks| && Passes(tasks[i], filter)
    ensures exists k :: 0 <= k < |Shown(tasks, filter)| && Shown(tasks, filter)[k].index == i
  {
    var m := |tasks| - 1;
    var before := Shown(tasks[..m], filter);
    if i == m {
      assert Shown(tasks, filter)[|before|].index == i;
    } else {
      ShownComplete(tasks[..m], filter, i);
      var k :| 0 <= k < |before| && before[k].index == i;
      assert Shown(tasks, filter)[k] == before[k];
    }
  }

  /** With no filter ("All") the list shows every task, in order. */
  lemma {:induction false} ShownAll(tasks: seq<Task>)
    ensures |Shown(tasks, None)| == |tasks|
    ensures forall k :: 0 <= k < |tasks| ==> Shown(tasks, None)[k] == RowOf(k, tasks[k])
  {
    if tasks != [] {
      ShownAll(tasks[..|tasks| - 1]);
    }
  }

  /** Filtering on a status shows as many rows as there are tasks with it. */
  lemma {:induction false} ShownCount(tasks: seq<Task>, s: Status)
    ensures |Shown(tasks, Some(s))| == CountStatus(tasks, s)
  {
    if tasks != [] {
      ShownCount(tasks[..|tasks| - 1], s);
    }
  }
}
