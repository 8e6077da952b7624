/**
 * The life cycle of AbstractGenericTask: a job that may be cancelled before
 * or while it runs, that records whether it terminated correctly and why it
 * failed, and that reports completion through `isDone` and `get`.
 */
module GenericTask {
  import opened Wrappers
  import opened TypeCatalogue

  /**
   * How the job a subclass supplies (`doThisJob`) ends: it completes, it
   * throws an `Exception`, which run catches, or it throws an `Error`
   * (StackOverflowError, OutOfMemoryError), which `catch (Exception e)` does
   * not catch and which therefore leaves run.
   */
  datatype JobOutcome = Completes | ThrowsException(exception: Throwable) | ThrowsError(error: Throwable)

  /** A task, whose job is given to `Run` as its outcome. */
  class Task {
    var correctlyTerminated: bool
    var failureReason: Option<Throwable>
    var name: Option<string>
    var isStarted: bool
    var isOver: bool
    var isCancelled: bool

    /** A task that is over and did not terminate correctly knows why. */
    predicate Valid()
      reads this
    {
      isOver && !correctlyTerminated ==> failureReason.Some?
    }

    /** The empty constructor: not started, not over, not cancelled, no name and no failure. */
    constructor ()
      ensures Valid()
      ensures !isStarted && !isOver && !isCancelled && !correctlyTerminated
      ensures failureReason == None && name == None
    {
      correctlyTerminated := false;
      failureReason := None;
      name := None;
      isStarted := false;
      isOver := false;
      isCancelled := false;
    }

    /**
     * run: unless cancelled, a task is marked started and the job runs. A job
     * that throws an exception leaves it as the failure reason and a task not
     * correctly terminated; otherwise (including a task cancelled before it
     * ran) it is correctly terminated, and either way it is then over. A job
     * that throws an error escapes run with it, before the task is marked
     * terminated or over, so the task stays not done and get keeps waiting.
     */
    method Run(job: JobOutcome) returns (escaped: Option<Throwable>)
      requires Valid()
      modifies this
      ensures Valid()
      ensures escaped == (if !old(isCancelled) && job.ThrowsError? then Some(job.error) else None)
      ensures isOver == (old(isOver) || escaped.None?)
      ensures escaped.None? ==> IsDone()
      ensures isStarted == (old(isStarted) || !old(isCancelled))
      ensures correctlyTerminated == (if escaped.Some? then old(correctlyTerminated) else old(isCancelled) || job.Completes?)
      ensures failureReason == (if !old(isCancelled) && job.ThrowsException? then Some(job.exception) else old(failureReason))
      ensures isCancelled == old(isCancelled) && name == old(name)
    {
      if !isCancelled {
        isStarted := true;
        match job
        case Completes =>
        case ThrowsException(e) =>
          failureReason := Some(e);
          correctlyTerminated := false;
          isOver := true;
          return None;
        case ThrowsError(e) =>
          return Some(e);
      }
      correctlyTerminated := true;
      isOver := true;
      return None;
    }

    /**
     * cancel: refused once a task is over; granted before it starts, and
     * while it runs only when interruption is allowed.
     */
    method Cancel(mayInterruptIfRunning: bool) returns (r: bool)
      requires Valid()
      modifies this
      ensures Valid()
      ensures r == (!old(isOver) && (!old(isStarted) || mayInterruptIfRunning))
      ensures isCancelled == (old(isCancelled) || r)
      ensures r ==> IsDone()
      ensures isStarted == old(isStarted) && isOver == old(isOver) && correctlyTerminated == old(correctlyTerminated)
      ensures failureReason == old(failureReason) && name == old(name)
    {
      if isOver {
        return false;
      } else if !isStarted {
        isCancelled := true;
        return true;
      } else if isStarted && mayInterruptIfRunning {
        isCancelled := true;
        return true;
      }
      return false;
    }

    /** isDone: a task is over or cancelled. */
    predicate IsDone()
      reads this
    {
      isOver || isCancelled
    }

    /**
     * get: the outcome once a task is over; `None` stands for a caller
     * that is still waiting, since get blocks until a task is over.
     */
    method Get() returns (r: Option<bool>)
      requires Valid()
      ensures r.Some? <==> isOver
      ensures r.Some? ==> (r.value <==> correctlyTerminated)
      ensures r == Some(false) ==> failureReason.Some?
    {
      if isOver {
        return Some(correctlyTerminated);
      }
      return None;
    }

    /** setName. */
    method SetName(newName: Option<string>)
      requires Valid()
      modifies this
      ensures Valid() && name == newName
      ensures correctlyTerminated == old(correctlyTerminated) && failureReason == old(failureReason)
      ensures isStarted == old(isStarted) && isOver == old(isOver) && isCancelled == old(isCancelled)
    {
      name := newName;
    }

    /** toString: the name when it is set and not empty, else the default text of `Object.toString`. */
    function ToString(objectText: string): (r: string)
      reads this
      ensures name.Some? && name.value != "" ==> r == name.value
      ensures name.None? || name.value == "" ==> r == objectText
    {
      if name.Some? && name.value != "" then name.value else objectText
    }
  }

  /** A task cancelled before it starts never runs its job and still ends correctly terminated. */
  method CancelledBeforeStart(job: JobOutcome) returns (task: Task)
    ensures !task.isStarted && task.isCancelled && task.isOver && task.correctlyTerminated
    ensures task.failureReason == None
  {
    task := new Task();
    var cancelled := task.Cancel(false);
    assert cancelled;
    var escaped := task.Run(job);
  }

  /** A job that throws an exception makes get report false, with the exception as the failure reason. */
  method FailedJob(failure: Throwable) returns (task: Task, outcome: Option<bool>)
    ensures outcome == Some(false) && task.failureReason == Some(failure)
    ensures task.isStarted && task.IsDone()
  {
    task := new Task();
    var escaped := task.Run(ThrowsException(failure));
    outcome := task.Get();
  }

  /** A started task can only be cancelled when interruption is allowed, and a finished one never. */
  method CancelAfterStart(interrupt: bool) returns (whileRunning: bool, afterwards: bool)
    ensures whileRunning == interrupt
    ensures !afterwards
  {
    var task := new Task();
    task.isStarted := true;
    whileRunning := task.Cancel(interrupt);
    var escaped := task.Run(Completes);
    afterwards := task.Cancel(true);
  }

  /** A job that throws an error leaves a started task that is not done, so get is still waiting. */
  method EscapedError(error: Throwable) returns (task: Task, escaped: Option<Throwable>, outcome: Option<bool>)
    ensures escaped == Some(error) && outcome == None
    ensures task.isStarted && !task.isOver && !task.IsDone() && !task.correctlyTerminated
  {
    task := new Task();
    escaped := task.Run(ThrowsError(error));
    outcome := task.Get();
  }
}
