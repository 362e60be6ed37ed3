/**
 * Reading the task file when the window opens. The file holds a JSON array of
 * task records; decoding it is a parameter of the model (`parse`), which
 * yields None where `json.loads` would fail.
 */
module Persistence {
  import opened Text
  import opened Tasks

  /** The task file as the program finds it. */
  datatype StoredFile =
    | Missing                    // no file at the path
    | Unreadable                 // opening or reading it fails with an I/O error
    | Present(content: string)   // its whole text

  /**
   * The task list the window starts with. A missing, unreadable or blank file
   * and a file that does not decode all give the empty list; otherwise the
   * decoded list of the stripped content.
   */
  function LoadTasks(file: StoredFile, parse: string -> Option<seq<Task>>): (tasks: seq<Task>)
    ensures !file.Present? ==> tasks == []
    ensures file.Present? && IsBlank(file.content) ==> tasks == []
    ensures tasks != [] ==> file.Present? && parse(Strip(file.content)) == Some(tasks)
    ensures file.Present? && !IsBlank(file.content) && parse(Strip(file.content)).Some? ==>
      tasks == parse(Strip(file.content)).value
  {
    match file
    case Missing => []
    case Unreadable => []
    case Present(content) =>
      var text := Strip(content);
      if text == [] then []
      else parse(text).GetOr([])
  }
}
