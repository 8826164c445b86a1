/**
 * The task record of the app and its decoding from a Firebase Realtime
 * Database snapshot, a map from field names to loosely typed values.
 */
module TaskModel {
  import opened Wrappers
  import opened Text
  import opened Snapshots

  /** The four task states; a task stores the name of one of them. */
  datatype TaskStatus = Pending | InProgress | Completed | Cancelled

  /** `TaskStatus.name`. */
  function StatusName(s: TaskStatus): (r: string)
    ensures |r| > 0
  {
    match s
    case Pending => "PENDING"
    case InProgress => "IN_PROGRESS"
    case Completed => "COMPLETED"
    case Cancelled => "CANCELLED"
  }

  /** `TaskStatus.valueOf(name)`: the state with that name, if any. */
  function StatusOf(name: string): (r: Option<TaskStatus>)
    ensures r.Some? ==> StatusName(r.value) == name
  {
    if name == "PENDING" then Some(Pending)
    else if name == "IN_PROGRESS" then Some(InProgress)
    else if name == "COMPLETED" then Some(Completed)
    else if name == "CANCELLED" then Some(Cancelled)
    else None
  }

  /** Every state is found again from its name, so distinct states have distinct names. */
  lemma StatusOfName(s: TaskStatus)
    ensures StatusOf(StatusName(s)) == Some(s)
  {
    match s
    case Pending =>
    case InProgress => assert "IN_PROGRESS" != "PENDING";
    case Completed => assert "COMPLETED"[0] != "PENDING"[0] && "COMPLETED" != "IN_PROGRESS";
    case Cancelled =>
      assert "CANCELLED"[0] != "PENDING"[0] && "CANCELLED"[0] != "IN_PROGRESS"[0];
      assert "CANCELLED"[1] != "COMPLETED"[1];
  }

  /** One task. Optional fields are `None` where the Kotlin field is null. */
  datatype Task = Task(
    uuid: string,
    title: string,
    description: Option<string>,
    taskType: string,
    deadlineDate: Option<string>,
    deadlineTime: Option<string>,
    status: string,
    isRecurring: bool,
    recurrencePattern: Option<string>,
    recurrenceInterval: int,
    recurrenceEndDate: Option<string>)

  /** The `recurrenceInterval` decoding: a number converted to `Int`, a string parsed with 1 as the fallback, otherwise 1. */
  function DecodeInterval(v: Option<Value>): (r: int)
    ensures Int32Min <= r <= Int32Max
    ensures v.None? ==> r == 1
    ensures v.Some? && v.value.Long? ==> r == WrapInt32(v.value.n)
    ensures v.Some? && v.value.Double? ==> r == Clamp(v.value.whole, Int32Min, Int32Max)
    ensures v.Some? && v.value.Str? ==> r == ToIntOrNull(v.value.s).GetOr(1)
    ensures v.Some? && (v.value.Bool? || v.value.Null? || v.value.Other?) ==> r == 1
  {
    match v
    case None => 1
    case Some(Long(n)) => WrapInt32(n)
    case Some(Double(_, whole)) => Clamp(whole, Int32Min, Int32Max)
    case Some(Str(s)) => ToIntOrNull(s).GetOr(1)
    case Some(_) => 1
  }

  /** `Task.fromSnapshot`. */
  function FromSnapshot(m: Snapshot): (t: Task)
    ensures t.uuid == Field(m, "uuid").GetOr("")
    ensures t.title == Field(m, "title").GetOr("")
    ensures t.taskType == Field(m, "taskType").GetOr("")
    ensures t.description == Field(m, "description")
    ensures t.deadlineDate == Field(m, "deadlineDate")
    ensures t.deadlineTime == Field(m, "deadlineTime")
    ensures t.recurrencePattern == Field(m, "recurrencePattern")
    ensures t.recurrenceEndDate == Field(m, "recurrenceEndDate")
    ensures t.status == Field(m, "status").GetOr(StatusName(Pending))
    ensures t.isRecurring <==> Field(m, "recurring").Some? && ToBoolean(Field(m, "recurring").value)
    ensures Int32Min <= t.recurrenceInterval <= Int32Max
  {
    Task(
      uuid := Field(m, "uuid").GetOr(""),
      title := Field(m, "title").GetOr(""),
      description := Field(m, "description"),
      taskType := Field(m, "taskType").GetOr(""),
      deadlineDate := Field(m, "deadlineDate"),
      deadlineTime := Field(m, "deadlineTime"),
      status := Field(m, "status").GetOr(StatusName(Pending)),
      isRecurring := match Field(m, "recurring") case None => false case Some(s) => ToBoolean(s),
      recurrencePattern := Field(m, "recurrencePattern"),
      recurrenceInterval := DecodeInterval(Lookup(m, "recurrenceInterval")),
      recurrenceEndDate := Field(m, "recurrenceEndDate"))
  }

  /** An empty snapshot decodes to the defaults. */
  lemma EmptySnapshotDefaults()
    ensures FromSnapshot(map[]) ==
      Task("", "", None, "", None, None, "PENDING", false, None, 1, None)
  {
  }

  /** The flag is read from the key `recurring`; a value under `isRecurring` is not looked at. */
  lemma RecurringKeyOnly(m: Snapshot, v: Value)
    requires "recurring" !in m
    ensures !FromSnapshot(m[ "isRecurring" := v ]).isRecurring
  {
  }

  /** A numeric string interval parses; anything else falls back to 1. */
  lemma IntervalExamples()
    ensures DecodeInterval(Some(Str("3"))) == 3
    ensures DecodeInterval(Some(Str("weekly"))) == 1
    ensures DecodeInterval(Some(Long(0x1_0000_0002))) == 2
    ensures DecodeInterval(Some(Double("2.7", 2))) == 2
  {
    assert AllDigits("3");
    assert DigitsValue("3") == 3 by {
      assert "3"[..0] == "";
    }
    assert !IsDigit("weekly"[0]);
  }

  /** The entries that are always written. */
  function FixedPart(t: Task): Snapshot
  {
    map["uuid" := Str(t.uuid), "title" := Str(t.title), "taskType" := Str(t.taskType),
        "status" := Str(t.status), "recurring" := Bool(t.isRecurring),
        "recurrenceInterval" := Long(t.recurrenceInterval)]
  }

  /**
   * The snapshot Firebase stores for a task: one entry per non-null
   * property, with the Boolean property `isRecurring` under the bean name
   * `recurring` and the `Int` interval as a whole number.
   */
  function ToSnapshot(t: Task): Snapshot
  {
    var m := PutText(FixedPart(t), "description", t.description);
    var m := PutText(m, "deadlineDate", t.deadlineDate);
    var m := PutText(m, "deadlineTime", t.deadlineTime);
    var m := PutText(m, "recurrencePattern", t.recurrencePattern);
    PutText(m, "recurrenceEndDate", t.recurrenceEndDate)
  }

  /** The optional entries leave the fixed ones alone. */
  lemma FixedFieldsKept(t: Task, k: string)
    requires k in FixedPart(t)
    ensures k in ToSnapshot(t) && ToSnapshot(t)[k] == FixedPart(t)[k]
  {
    var m0 := FixedPart(t);
    assert |k| != 11 && |k| != 12 && |k| != 17;
    PutTextKeeps(m0, "description", t.description, k);
    var m1 := PutText(m0, "description", t.description);
    PutTextKeeps(m1, "deadlineDate", t.deadlineDate, k);
    var m2 := PutText(m1, "deadlineDate", t.deadlineDate);
    PutTextKeeps(m2, "deadlineTime", t.deadlineTime, k);
    var m3 := PutText(m2, "deadlineTime", t.deadlineTime);
    PutTextKeeps(m3, "recurrencePattern", t.recurrencePattern, k);
    var m4 := PutText(m3, "recurrencePattern", t.recurrencePattern);
    PutTextKeeps(m4, "recurrenceEndDate", t.recurrenceEndDate, k);
  }

  /** Each optional entry is read back as it was written. */
  lemma OptionalFieldsRead(t: Task)
    ensures Field(ToSnapshot(t), "description") == t.description
    ensures Field(ToSnapshot(t), "deadlineDate") == t.deadlineDate
    ensures Field(ToSnapshot(t), "deadlineTime") == t.deadlineTime
    ensures Field(ToSnapshot(t), "recurrencePattern") == t.recurrencePattern
    ensures Field(ToSnapshot(t), "recurrenceEndDate") == t.recurrenceEndDate
  {
    var m0 := FixedPart(t);
    var m1 := PutText(m0, "description", t.description);
    var m2 := PutText(m1, "deadlineDate", t.deadlineDate);
    var m3 := PutText(m2, "deadlineTime", t.deadlineTime);
    var m4 := PutText(m3, "recurrencePattern", t.recurrencePattern);
    var m5 := PutText(m4, "recurrenceEndDate", t.recurrenceEndDate);
    assert m5 == ToSnapshot(t);
    var time, date := "deadlineTime", "deadlineDate";
    assert time != date by {
      assert time[8] != date[8];
    }
    var pattern, end := "recurrencePattern", "recurrenceEndDate";
    assert pattern != end by {
      assert pattern[10] != end[10];
    }
    // description: written first, then four other keys
    PutTextSame(m0, "description", t.description);
    PutTextOther(m1, date, t.deadlineDate, "description");
    PutTextOther(m2, time, t.deadlineTime, "description");
    PutTextOther(m3, pattern, t.recurrencePattern, "description");
    PutTextOther(m4, end, t.recurrenceEndDate, "description");
    // deadlineDate
    PutTextSame(m1, date, t.deadlineDate);
    PutTextOther(m2, time, t.deadlineDate, date);
    PutTextOther(m3, pattern, t.recurrencePattern, date);
    PutTextOther(m4, end, t.recurrenceEndDate, date);
    // deadlineTime
    PutTextSame(m2, time, t.deadlineTime);
    PutTextOther(m3, pattern, t.recurrencePattern, time);
    PutTextOther(m4, end, t.recurrenceEndDate, time);
    // recurrencePattern and recurrenceEndDate
    PutTextSame(m3, pattern, t.recurrencePattern);
    PutTextOther(m4, end, t.recurrenceEndDate, pattern);
    PutTextSame(m4, end, t.recurrenceEndDate);
  }

  /** `m` holds the fields of `t` the way Firebase writes them. */
  predicate Describes(m: Snapshot, t: Task)
  {
    && Lookup(m, "uuid") == Some(Str(t.uuid))
    && Lookup(m, "title") == Some(Str(t.title))
    && Lookup(m, "taskType") == Some(Str(t.taskType))
    && Lookup(m, "status") == Some(Str(t.status))
    && Lookup(m, "recurring") == Some(Bool(t.isRecurring))
    && Lookup(m, "recurrenceInterval") == Some(Long(t.recurrenceInterval))
    && Field(m, "description") == t.description
    && Field(m, "deadlineDate") == t.deadlineDate
    && Field(m, "deadlineTime") == t.deadlineTime
    && Field(m, "recurrencePattern") == t.recurrencePattern
    && Field(m, "recurrenceEndDate") == t.recurrenceEndDate
  }

  /** Any snapshot laid out that way decodes to the task. */
  lemma DecodeDescribed(m: Snapshot, t: Task)
    requires Describes(m, t)
    requires Int32Min <= t.recurrenceInterval <= Int32Max
    ensures FromSnapshot(m) == t
  {
    ToBooleanExamples();
  }

  /** The snapshot written for a task is laid out that way. */
  lemma ToSnapshotDescribes(t: Task)
    ensures Describes(ToSnapshot(t), t)
  {
    OptionalFieldsRead(t);
    FixedFieldsKept(t, "uuid");
    FixedFieldsKept(t, "title");
    FixedFieldsKept(t, "taskType");
    FixedFieldsKept(t, "status");
    FixedFieldsKept(t, "recurring");
    FixedFieldsKept(t, "recurrenceInterval");
  }

  /** Decoding what Firebase stores for a task gives the task back. */
  lemma SnapshotRoundTrip(t: Task)
    requires Int32Min <= t.recurrenceInterval <= Int32Max
    ensures FromSnapshot(ToSnapshot(t)) == t
  {
    ToSnapshotDescribes(t);
    DecodeDescribed(ToSnapshot(t), t);
  }
}
