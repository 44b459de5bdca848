/** The task record shared by every view of the dashboard, and the small
    helpers over task lists that more than one component needs. */
module TaskModel {

  datatype Option<T> = None | Some(value: T)

  /** One study reminder. `dueDate` is the raw text the form produced
      (`YYYY-MM-DD` from the date input); a missing due date is "". */
  datatype Task = Task(id: string, title: string, dueDate: string, subject: string, completed: bool)

  function Ids(tasks: seq<Task>): (r: set<string>)
    ensures forall t :: t in tasks ==> t.id in r
    ensures forall id :: id in r ==> exists t :: t in tasks && t.id == id
  {
    set t | t in tasks :: t.id
  }

  /** No two positions of the store hold the same id. */
  ghost predicate UniqueIds(tasks: seq<Task>) {
    forall i, j :: 0 <= i < j < |tasks| ==> tasks[i].id != tasks[j].id
  }
}
