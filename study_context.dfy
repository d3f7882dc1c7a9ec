/** The study provider: a completed-session counter and a list of task names. */
module StudyContext {
  import opened Wrappers

  class StudyProvider {
    var sessionsCompleted: nat
    var tasks: seq<string>

    /** No session completed yet and no task. */
    constructor ()
      ensures sessionsCompleted == 0 && tasks == []
    {
      sessionsCompleted := 0;
      tasks := [];
    }

    /** `addSession`: one more completed session; the tasks stay. */
    method AddSession()
      modifies this`sessionsCompleted
      ensures sessionsCompleted == old(sessionsCompleted) + 1
    {
      sessionsCompleted := sessionsCompleted + 1;
    }

    /** `addTask`: the name goes at the end; the counter stays. */
    method AddTask(t: string)
      modifies this`tasks
      ensures tasks == old(tasks) + [t]
      ensures tasks[..|old(tasks)|] == old(tasks) && tasks[|tasks| - 1] == t
    {
      tasks := tasks + [t];
    }
  }

  /** `useStudy`: the provider in scope, or the error the hook throws outside one. */
  function UseStudy(context: Option<StudyProvider>): (r: Result<StudyProvider, string>)
    ensures r.Success? <==> context.Some?
    ensures r.Success? ==> r.value == context.value
    ensures r.Failure? ==> r.error == "useStudy must be used within StudyProvider"
  {
    if context.None? then Failure("useStudy must be used within StudyProvider") else Success(context.value)
  }
}
