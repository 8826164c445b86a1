/** Creating a task: the checks made before a new task is stored, and the task that is stored. */
module InsertTaskUseCase {
  import opened Wrappers
  import opened Text
  import opened TaskModel

  const TitleRequired := "You can't save without a title"
  const TypeRequired := "You can't save without a task type"

  /**
   * `InsertTaskUseCase.invoke`: the task handed to the repository, or the
   * exception thrown instead. `uuid` is the random identifier the `Task`
   * constructor draws.
   */
  function Insert(uuid: string, title: string, description: string, taskType: string,
                  deadlineDate: string, deadlineTime: string, status: TaskStatus,
                  isRecurring: bool, recurrencePattern: Option<string>,
                  recurrenceInterval: int, recurrenceEndDate: Option<string>): (r: Result<Task>)
    ensures IsBlank(title) ==> r == Failure(TitleRequired)
    ensures !IsBlank(title) && IsBlank(taskType) ==> r == Failure(TypeRequired)
    ensures r.Success? <==> !IsBlank(title) && !IsBlank(taskType)
    ensures r.Success? ==>
      && r.value.uuid == uuid
      && r.value.title == title && r.value.description == Some(description)
      && r.value.taskType == taskType
      && r.value.deadlineDate == Some(ReplaceChar(deadlineDate, '/', '-'))
      && r.value.deadlineTime == Some(deadlineTime)
      && StatusOf(r.value.status) == Some(status)
      && r.value.isRecurring == isRecurring
      && r.value.recurrencePattern == recurrencePattern
      && r.value.recurrenceInterval == recurrenceInterval
      && r.value.recurrenceEndDate == recurrenceEndDate
  {
    StatusOfName(status);
    if IsBlank(title) then Failure(TitleRequired)
    else if IsBlank(taskType) then Failure(TypeRequired)
    else Success(Task(
      uuid := uuid,
      title := title,
      description := Some(description),
      taskType := taskType,
      deadlineDate := Some(ReplaceChar(deadlineDate, '/', '-')),
      deadlineTime := Some(deadlineTime),
      status := StatusName(status),
      isRecurring := isRecurring,
      recurrencePattern := recurrencePattern,
      recurrenceInterval := recurrenceInterval,
      recurrenceEndDate := recurrenceEndDate))
  }

  /** The call with the description and the recurrence arguments left at their defaults. */
  function InsertWithDefaults(uuid: string, title: string, taskType: string,
                              deadlineDate: string, deadlineTime: string, status: TaskStatus): (r: Result<Task>)
    ensures r.Success? ==>
      && r.value.description == Some("")
      && !r.value.isRecurring && r.value.recurrencePattern == None
      && r.value.recurrenceInterval == 1 && r.value.recurrenceEndDate == None
  {
    Insert(uuid, title, "", taskType, deadlineDate, deadlineTime, status, false, None, 1, None)
  }

  /** A stored deadline date never holds a `/`, and a date already written with `-` is stored as given. */
  lemma InsertedDateNormalised(uuid: string, title: string, description: string, taskType: string,
                               deadlineDate: string, deadlineTime: string, status: TaskStatus,
                               isRecurring: bool, recurrencePattern: Option<string>,
                               recurrenceInterval: int, recurrenceEndDate: Option<string>)
    requires !IsBlank(title) && !IsBlank(taskType)
    ensures var r := Insert(uuid, title, description, taskType, deadlineDate, deadlineTime, status,
                            isRecurring, recurrencePattern, recurrenceInterval, recurrenceEndDate);
            && '/' !in r.value.deadlineDate.value
            && ('/' !in deadlineDate ==> r.value.deadlineDate == Some(deadlineDate))
  {
    ReplaceCharRemoves(deadlineDate, '/', '-');
  }

  /** The checks as the tests state them: `"  "` is no title, and a title is checked before the type. */
  lemma InsertChecksExamples(uuid: string, status: TaskStatus)
    ensures Insert(uuid, "  ", "", "", "1/2", "10:00", status, false, None, 1, None) == Failure(TitleRequired)
    ensures Insert(uuid, "Gym", "", " ", "1/2", "10:00", status, false, None, 1, None) == Failure(TypeRequired)
    ensures var r := Insert(uuid, "Gym", "", "HOBBIES", "1/2", "10:00", status, false, None, 1, None);
            r.Success? && r.value.deadlineDate == Some("1-2")
  {
    assert !IsBlank("Gym") by {
      assert !IsWhitespace("Gym"[0]);
    }
    assert !IsBlank("HOBBIES") by {
      assert !IsWhitespace("HOBBIES"[0]);
    }
    assert ReplaceChar("1/2", '/', '-') == "1-2";
  }

  /** What is stored for a new task decodes back to it from Firebase. */
  lemma InsertedTaskRoundTrip(uuid: string, title: string, description: string, taskType: string,
                              deadlineDate: string, deadlineTime: string, status: TaskStatus,
                              isRecurring: bool, recurrencePattern: Option<string>,
                              recurrenceInterval: int, recurrenceEndDate: Option<string>)
    requires Int32Min <= recurrenceInterval <= Int32Max
    ensures var r := Insert(uuid, title, description, taskType, deadlineDate, deadlineTime, status,
                            isRecurring, recurrencePattern, recurrenceInterval, recurrenceEndDate);
            r.Success? ==> FromSnapshot(ToSnapshot(r.value)) == r.value
  {
    var r := Insert(uuid, title, description, taskType, deadlineDate, deadlineTime, status,
                    isRecurring, recurrencePattern, recurrenceInterval, recurrenceEndDate);
    if r.Success? {
      SnapshotRoundTrip(r.value);
    }
  }
}
