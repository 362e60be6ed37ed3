/**
 * The task record of the to-do list and the words the window uses for its
 * statuses.
 */
module Tasks {
  import opened Text

  datatype Option<T> = None | Some(value: T) {
    /** The value, or `default` when there is none (Python's `dict.get(key, default)`). */
    function GetOr(default: T): T {
      match this
      case Some(v) => v
      case None => default
    }
  }

  datatype Status = Open | InProgress | Done

  datatype Priority = Low | Medium | High

  /**
   * One to-do item. The priority is optional: a record loaded from an older
   * file may lack it, and the list then shows it as Medium.
   */
  datatype Task = Task(text: string, status: Status, priority: Option<Priority>)

  /** A task text as the entry fields produce it: non-empty, no surrounding whitespace. */
  predicate IsTrimmedText(s: string) {
    s != [] && !IsSpace(s[0]) && !IsSpace(s[|s| - 1])
  }

  /** Every task text in the list is trimmed and non-empty. */
  predicate WellFormed(tasks: seq<Task>) {
    forall i :: 0 <= i < |tasks| ==> IsTrimmedText(tasks[i].text)
  }

  /** A trimmed text is exactly a non-empty one that stripping leaves alone. */
  lemma TrimmedTextIsStripFixpoint(s: string)
    ensures IsTrimmedText(s) <==> s != [] && Strip(s) == s
  {
    if IsTrimmedText(s) {
      StripOfTrimmed(s);
    }
  }

  /** Putting a task with a trimmed text in place of another keeps the list well formed. */
  lemma WellFormedReplace(tasks: seq<Task>, k: nat, t: Task)
    requires k < |tasks| && IsTrimmedText(t.text)
    ensures WellFormed(tasks) ==> WellFormed(tasks[k := t])
  {
  }

  /** The name of a status, as stored in the file and shown in the dropdowns. */
  function StatusLabel(s: Status): (name: string)
    ensures name != [] && name != "All"
    ensures name in FilterChoices
  {
    match s
    case Open => "Open"
    case InProgress => "In Progress"
    case Done => "Done"
  }

  /** Different statuses have different names. */
  lemma StatusLabelInjective(s: Status, t: Status)
    ensures StatusLabel(s) == StatusLabel(t) ==> s == t
  {
  }

  /** The status a label names, if any. */
  function ParseStatus(name: string): (r: Option<Status>)
    ensures r.Some? ==> StatusLabel(r.value) == name
    ensures r.None? ==> forall s: Status :: StatusLabel(s) != name
  {
    if name == "Open" then Some(Open)
    else if name == "In Progress" then Some(InProgress)
    else if name == "Done" then Some(Done)
    else None
  }

  /** The entries of the filter dropdown. */
  const FilterChoices: seq<string> := ["All", "Open", "In Progress", "Done"]
}
