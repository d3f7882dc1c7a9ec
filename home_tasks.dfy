/**
 * The landing page's task list: adding, toggling, deleting and clearing the
 * study tasks before the journey starts.
 */
module HomeTasks {
  datatype Task = Task(id: string, text: string, completed: bool)

  /**
   * The characters `String.prototype.trim` strips: the ECMAScript
   * WhiteSpace and LineTerminator code points.
   */
  predicate IsJsWhitespace(c: char)
  {
    c == '\U{9}' || c == '\U{B}' || c == '\U{C}' || c == '\U{20}' || c == '\U{A0}'
    || c == '\U{FEFF}' || c == '\U{1680}' || ('\U{2000}' <= c <= '\U{200A}') || c == '\U{202F}'
    || c == '\U{205F}' || c == '\U{3000}'
    || c == '\U{A}' || c == '\U{D}' || c == '\U{2028}' || c == '\U{2029}'
  }

  /** A blank input: nothing is left once it is trimmed. */
  predicate IsBlank(text: string)
  {
    forall i :: 0 <= i < |text| ==> IsJsWhitespace(text[i])
  }

  /** The list `toggleTask` stores: every task with that id has its completion flipped. */
  function Toggled(tasks: seq<Task>, id: string): (r: seq<Task>)
    ensures |r| == |tasks|
    ensures forall i :: 0 <= i < |tasks| && tasks[i].id != id ==> r[i] == tasks[i]
    ensures forall i :: 0 <= i < |tasks| && tasks[i].id == id ==>
      r[i] == Task(tasks[i].id, tasks[i].text, !tasks[i].completed)
    decreases |tasks|
  {
    if tasks == [] then []
    else
      var t := tasks[0];
      [if t.id == id then t.(completed := !t.completed) else t] + Toggled(tasks[1..], id)
  }

  /** Toggling the same id twice gives back the list. */
  lemma ToggleTwice(tasks: seq<Task>, id: string)
    ensures Toggled(Toggled(tasks, id), id) == tasks
  {
    var r := Toggled(Toggled(tasks, id), id);
    assert forall i :: 0 <= i < |tasks| ==> r[i] == tasks[i];
  }

  /** The list `deleteTask` stores: the tasks whose id differs, in order. */
  function Removed(tasks: seq<Task>, id: string): (r: seq<Task>)
    ensures |r| <= |tasks|
    ensures forall t :: t in r <==> t in tasks && t.id != id
    decreases |tasks|
  {
    if tasks == [] then []
    else if tasks[0].id == id then Removed(tasks[1..], id)
    else [tasks[0]] + Removed(tasks[1..], id)
  }

  /** Deleting distributes over concatenation, so the survivors keep their order. */
  lemma {:induction false} DeleteConcat(a: seq<Task>, b: seq<Task>, id: string)
    ensures Removed(a + b, id) == Removed(a, id) + Removed(b, id)
    decreases |a|
  {
    if a == [] {
      assert a + b == b;
    } else {
      assert (a + b)[0] == a[0] && (a + b)[1..] == a[1..] + b;
      DeleteConcat(a[1..], b, id);
    }
  }

  /** Deleting an id no task carries changes nothing. */
  lemma {:induction false} DeleteAbsent(tasks: seq<Task>, id: string)
    requires forall i :: 0 <= i < |tasks| ==> tasks[i].id != id
    ensures Removed(tasks, id) == tasks
    decreases |tasks|
  {
    if tasks != [] {
      DeleteAbsent(tasks[1..], id);
      assert [tasks[0]] + tasks[1..] == tasks;
    }
  }

  /** Adding a task with a fresh id and then deleting that id restores the list. */
  lemma DeleteUndoesAdd(tasks: seq<Task>, text: string, freshId: string)
    requires forall i :: 0 <= i < |tasks| ==> tasks[i].id != freshId
    ensures Removed(tasks + [Task(freshId, text, false)], freshId) == tasks
  {
    DeleteConcat(tasks, [Task(freshId, text, false)], freshId);
    DeleteAbsent(tasks, freshId);
    assert [Task(freshId, text, false)][1..] == [];
  }

  /** The `Home` page's state. */
  class Home {
    var tasks: seq<Task>
    var newTask: string
    var isFormOpen: bool
    var isTaskCreated: bool

    /** No tasks, an empty input, the form closed. */
    constructor ()
      ensures tasks == [] && newTask == "" && !isFormOpen && !isTaskCreated
    {
      tasks := [];
      newTask := "";
      isFormOpen := false;
      isTaskCreated := false;
    }

    /**
     * Submitting the form. A blank input changes nothing; otherwise one task
     * with the untrimmed text and the caller's fresh id is appended, the
     * input is cleared and the list counts as created.
     */
    method AddTask(freshId: string)
      modifies this
      ensures IsBlank(old(newTask)) ==>
        tasks == old(tasks) && newTask == old(newTask) && isTaskCreated == old(isTaskCreated)
      ensures !IsBlank(old(newTask)) ==>
        tasks == old(tasks) + [Task(freshId, old(newTask), false)] && newTask == "" && isTaskCreated
      ensures isFormOpen == old(isFormOpen)
    {
      if IsBlank(newTask) {
        return;
      }
      tasks := tasks + [Task(freshId, newTask, false)];
      newTask := "";
      isTaskCreated := true;
    }

    method ToggleTask(id: string)
      modifies this`tasks
      ensures tasks == Toggled(old(tasks), id)
    {
      tasks := Toggled(tasks, id);
    }

    method DeleteTask(id: string)
      modifies this`tasks
      ensures tasks == Removed(old(tasks), id)
    {
      tasks := Removed(tasks, id);
    }

    /** `clearAllTasks`, with the answer to the confirmation dialog as a parameter. */
    method ClearAllTasks(confirmed: bool)
      modifies this
      ensures confirmed ==> tasks == [] && !isTaskCreated && !isFormOpen
      ensures !confirmed ==>
        tasks == old(tasks) && isTaskCreated == old(isTaskCreated) && isFormOpen == old(isFormOpen)
      ensures newTask == old(newTask)
    {
      if confirmed {
        tasks := [];
        isTaskCreated := false;
        isFormOpen := false;
      }
    }
  }
}
