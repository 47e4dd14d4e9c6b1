/** The task record stored in tasks.json, and the rules the stored collection is expected to keep. */
module TaskModel {
  import opened Optional

  /** One entry of the stored array; `dueDate` is `null` (None) or the `--due=` text. */
  datatype Task = Task(id: int, text: string, done: bool, priority: string, dueDate: Option<string>)

  predicate HasId(tasks: seq<Task>, id: int) {
    exists i :: 0 <= i < |tasks| && tasks[i].id == id
  }

  /** `i` is the position `tasks.find(t => t.id === id)` lands on. */
  predicate IsFirst(tasks: seq<Task>, id: int, i: int) {
    0 <= i < |tasks| && tasks[i].id == id && forall j :: 0 <= j < i ==> tasks[j].id != id
  }

  /**
   * What the commands keep true of every task they create or edit: a non-empty description, a
   * non-empty priority (an empty one becomes "medium") and no empty due date (it becomes null).
   */
  predicate WellFormed(tasks: seq<Task>) {
    forall i :: 0 <= i < |tasks| ==>
      tasks[i].text != "" && tasks[i].priority != "" && tasks[i].dueDate != Some("")
  }

  predicate UniqueIds(tasks: seq<Task>) {
    forall i, j :: 0 <= i < j < |tasks| ==> tasks[i].id != tasks[j].id
  }

  /** The outcome of reading and `JSON.parse`-ing tasks.json, which this model does not perform. */
  datatype StoredDocument = Unreadable | NotAnArray | TaskArray(tasks: seq<Task>)

  /** `loadTasks`: a stored array is the collection; anything else, or a failed read, is `[]`. */
  function Load(doc: StoredDocument): (r: seq<Task>)
    ensures doc.TaskArray? ==> r == doc.tasks
    ensures !doc.TaskArray? ==> r == []
  {
    match doc
    case TaskArray(tasks) => tasks
    case _ => []
  }
}
