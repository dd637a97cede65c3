/**
 * The task checklist block: a list of tasks whose `completed` flag is
 * flipped by id. `toggleTask` builds a new list with `map`; the component
 * then replaces its whole list with it.
 */
module TaskBlockContent {

  datatype Task = Task(id: string, text: string, completed: bool)

  /** The list the component starts with: three tasks, only the third done. */
  function InitialTasks(): (r: seq<Task>)
    ensures |r| == 3
    ensures r[0].id == "1" && r[1].id == "2" && r[2].id == "3"
    ensures forall i :: 0 <= i < |r| ==> (r[i].completed <==> r[i].id == "3")
  {
    [ Task("1", "Estudar para a prova", false),
      Task("2", "Terminar o projeto", false),
      Task("3", "Fazer o exercício", true) ]
  }

  /** The ids of a list, in order. */
  function Ids(tasks: seq<Task>): (r: seq<string>)
    ensures |r| == |tasks|
    ensures forall i :: 0 <= i < |tasks| ==> r[i] == tasks[i].id
  {
    if tasks == [] then [] else [tasks[0].id] + Ids(tasks[1..])
  }

  /**
   * `toggleTask(taskId)`: every task whose id matches has `completed` negated;
   * ids, texts, order and length stay as they were.
   */
  function ToggleTask(tasks: seq<Task>, taskId: string): (r: seq<Task>)
    ensures |r| == |tasks|
    ensures forall i :: 0 <= i < |tasks| ==>
      r[i].id == tasks[i].id && r[i].text == tasks[i].text &&
      r[i].completed == (if tasks[i].id == taskId then !tasks[i].completed else tasks[i].completed)
  {
    if tasks == [] then []
    else
      var first := if tasks[0].id == taskId then tasks[0].(completed := !tasks[0].completed) else tasks[0];
      [first] + ToggleTask(tasks[1..], taskId)
  }

  /** The order of ids is preserved. */
  lemma ToggleKeepsIds(tasks: seq<Task>, taskId: string)
    ensures Ids(ToggleTask(tasks, taskId)) == Ids(tasks)
  {
  }

  /** Tasks with another id are untouched. */
  lemma ToggleKeepsOthers(tasks: seq<Task>, taskId: string, i: int)
    requires 0 <= i < |tasks| && tasks[i].id != taskId
    ensures ToggleTask(tasks, taskId)[i] == tasks[i]
  {
  }

  /** An id that no task has leaves the whole list as it was. */
  lemma ToggleMissingId(tasks: seq<Task>, taskId: string)
    requires forall i :: 0 <= i < |tasks| ==> tasks[i].id != taskId
    ensures ToggleTask(tasks, taskId) == tasks
  {
    var r := ToggleTask(tasks, taskId);
    forall i | 0 <= i < |tasks| ensures r[i] == tasks[i] {
      ToggleKeepsOthers(tasks, taskId, i);
    }
  }

  /** Toggling the same id twice gives back the original list. */
  lemma ToggleTwice(tasks: seq<Task>, taskId: string)
    ensures ToggleTask(ToggleTask(tasks, taskId), taskId) == tasks
  {
    var r := ToggleTask(ToggleTask(tasks, taskId), taskId);
    forall i | 0 <= i < |tasks| ensures r[i] == tasks[i] {
      var once := ToggleTask(tasks, taskId);
      assert once[i].id == tasks[i].id;
    }
  }

  /** On the initial list, toggling "1" marks the first task done and changes nothing else. */
  lemma ToggleInitialFirst()
    ensures var r := ToggleTask(InitialTasks(), "1");
      r[0].completed && r[1] == InitialTasks()[1] && r[2] == InitialTasks()[2]
  {
  }
}
