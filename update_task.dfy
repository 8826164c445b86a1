/** Editing a task: the checks made before an edit is stored, and the copy of the old task that is stored. */
module UpdateTaskUseCase {
  import opened Wrappers
  import opened Text
  import opened TaskModel

  const TitleRequired := "You can't save without a title"
  const TypeRequired := "You can't save without a task type"

  /**
   * `UpdateTaskUseCase.invoke` up to the priority prediction: the copy of
   * `task` handed on, or the exception thrown instead.
   */
  function Update(task: Task, title: string, description: string, taskType: string,
                  deadlineDate: string, deadlineTime: string, status: string,
                  isRecurring: bool, recurrencePattern: Option<string>,
                  recurrenceInterval: int, recurrenceEndDate: Option<string>): (r: Result<Task>)
    ensures IsBlank(title) ==> r == Failure(TitleRequired)
    ensures !IsBlank(title) && IsBlank(taskType) ==> r == Failure(TypeRequired)
    ensures r.Success? <==> !IsBlank(title) && !IsBlank(taskType)
    ensures r.Success? ==>
      && r.value.uuid == task.uuid
      && r.value.title == title && r.value.description == Some(description)
      && r.value.taskType == taskType
      && r.value.deadlineDate == Some(ReplaceChar(deadlineDate, '/', '-'))
      && r.value.deadlineTime == Some(deadlineTime)
      && r.value.status == status
      && r.value.isRecurring == isRecurring
      && r.value.recurrencePattern == recurrencePattern
      && r.value.recurrenceInterval == recurrenceInterval
      && r.value.recurrenceEndDate == recurrenceEndDate
  {
    if IsBlank(title) then Failure(TitleRequired)
    else if IsBlank(taskType) then Failure(TypeRequired)
    else Success(task.(
      title := title,
      description := Some(description),
      taskType := taskType,
      deadlineDate := Some(ReplaceChar(deadlineDate, '/', '-')),
      deadlineTime := Some(deadlineTime),
      status := status,
      isRecurring := isRecurring,
      recurrencePattern := recurrencePattern,
      recurrenceInterval := recurrenceInterval,
      recurrenceEndDate := recurrenceEndDate))
  }

  /** The call with the status and the recurrence arguments left at their defaults, which are the old task's. */
  function UpdateWithDefaults(task: Task, title: string, description: string, taskType: string,
                              deadlineDate: string, deadlineTime: string): (r: Result<Task>)
    ensures r.Success? ==>
      && r.value.status == task.status
      && r.value.isRecurring == task.isRecurring
      && r.value.recurrencePattern == task.recurrencePattern
      && r.value.recurrenceInterval == task.recurrenceInterval
      && r.value.recurrenceEndDate == task.recurrenceEndDate
  {
    Update(task, title, description, taskType, deadlineDate, deadlineTime, task.status,
           task.isRecurring, task.recurrencePattern, task.recurrenceInterval, task.recurrenceEndDate)
  }

  /** Re-saving a task with its own fields (date already with `-`) changes nothing. */
  lemma UpdateWithOwnFields(task: Task)
    requires !IsBlank(task.title) && !IsBlank(task.taskType)
    requires task.description.Some? && task.deadlineDate.Some? && task.deadlineTime.Some?
    requires '/' !in task.deadlineDate.value
    ensures UpdateWithDefaults(task, task.title, task.description.value, task.taskType,
                               task.deadlineDate.value, task.deadlineTime.value) == Success(task)
  {
    ReplaceCharRemoves(task.deadlineDate.value, '/', '-');
  }

  /** Updating twice with the same arguments stores the same task as updating once. */
  lemma UpdateIdempotent(task: Task, title: string, description: string, taskType: string,
                         deadlineDate: string, deadlineTime: string, status: string,
                         isRecurring: bool, recurrencePattern: Option<string>,
                         recurrenceInterval: int, recurrenceEndDate: Option<string>)
    requires !IsBlank(title) && !IsBlank(taskType)
    ensures var once := Update(task, title, description, taskType, deadlineDate, deadlineTime, status,
                               isRecurring, recurrencePattern, recurrenceInterval, recurrenceEndDate);
            Update(once.value, title, description, taskType, deadlineDate, deadlineTime, status,
                   isRecurring, recurrencePattern, recurrenceInterval, recurrenceEndDate) == once
  {
  }

  /** The supplied recurrence settings replace the old ones, as the tests check. */
  lemma UpdateOverwritesRecurrence(task: Task)
    requires !task.isRecurring && task.recurrencePattern == None
    ensures var r := Update(task, "Run", "", "HOBBIES", "2024-05-01", "07:00", task.status,
                            true, Some("WEEKLY"), 2, Some("2024-12-31"));
            && r.Success? && r.value.uuid == task.uuid && r.value.isRecurring
            && r.value.recurrencePattern == Some("WEEKLY") && r.value.recurrenceInterval == 2
            && r.value.recurrenceEndDate == Some("2024-12-31")
  {
    assert !IsBlank("Run") by {
      assert !IsWhitespace("Run"[0]);
    }
    assert !IsBlank("HOBBIES") by {
      assert !IsWhitespace("HOBBIES"[0]);
    }
  }
}
