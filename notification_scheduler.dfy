/**
 * Reminder scheduling for tasks. The platform's alarm table is a map from
 * an alarm's request key to the alarm; setting an alarm under a key that is
 * already present replaces it. Everything the scheduler asks the platform
 * for (the exact-alarm permission, the clock, the date and time parsers and
 * the calendar that joins a date and a time) is an `Env` value.
 */
module NotificationSchedulerModel {
  import opened Wrappers
  import opened Text
  import opened TaskModel

  const MillisPerMinute := 60000
  /** The reminder comes this many minutes before the deadline. */
  const ReminderLeadMinutes := 15
  const ReminderLead := ReminderLeadMinutes * MillisPerMinute

  /** The date patterns tried in order. */
  const DateFormats := ["yyyy-MM-dd", "dd/MM/yyyy"]

  datatype Env = Env(
    /** The build allows exact alarms: below Android 12, or the permission is granted. */
    canScheduleExact: bool,
    /** The clock, in milliseconds. */
    now: int,
    /** `SimpleDateFormat(pattern).parse(text)`, `None` where it throws. */
    parseDate: (string, string) -> Option<int>,
    /** `SimpleDateFormat("HH:mm").parse(text)`, `None` where it throws. */
    parseTime: string -> Option<int>,
    /** The date's calendar with the hour and minute of the time set and the seconds cleared, in milliseconds. */
    combine: (int, int) -> int)

  /** The extras every notification intent carries. */
  datatype Payload = Payload(taskId: string, title: string, description: string, taskType: string, deadline: string)

  datatype Alarm = Alarm(payload: Payload, triggerAt: int, isReminder: bool, minutesRemaining: Option<int>)

  datatype Notice =
    | Broadcast(payload: Payload, minutesRemaining: int)
    | General(title: string, message: string)

  /** The alarm table and the notifications sent so far. */
  datatype State = State(alarms: map<string, Alarm>, notices: seq<Notice>)

  function PayloadOf(t: Task): Payload
  {
    Payload(t.uuid, t.title, t.description.GetOr(""), t.taskType,
            t.deadlineDate.GetOr("null") + " " + t.deadlineTime.GetOr("null"))
  }

  function ReminderKey(uuid: string): string { "reminder-" + uuid }
  function DeadlineKey(uuid: string): string { "deadline-" + uuid }

  /** The keys `cancelTaskReminder` clears for a task. */
  function TaskKeys(uuid: string): set<string>
  {
    {ReminderKey(uuid), DeadlineKey(uuid), uuid}
  }

  const PermissionNotice := General("Permission Required", "Please grant exact alarm permission for task reminders to work properly")

  function ErrorNotice(t: Task): Notice
  {
    General("Error Setting Reminder", "Failed to schedule notifications for task: " + t.title)
  }

  /** The loop over the date patterns, stopping at the first that parses. */
  method ParseDeadlineDate(text: string, parse: (string, string) -> Option<int>) returns (date: Option<int>)
    ensures date == FirstParse(DateFormats, text, parse)
  {
    var formats := DateFormats;
    date := None;
    var i := 0;
    while i < |formats|
      invariant 0 <= i <= |formats|
      invariant date.None?
      invariant FirstParse(DateFormats, text, parse) == FirstParse(formats[i..], text, parse)
    {
      assert formats[i..][1..] == formats[i + 1..];
      var d := parse(formats[i], text);
      if d.Some? {
        date := d;
        return;
      }
      i := i + 1;
    }
  }

  /** What `createNotificationsForTask` ends up doing for one task. */
  datatype Decision =
    | Skip
    | NeedPermission
    | Failed
    | Soon(minutes: int, deadline: int)
    | Later(reminderAt: Option<int>, deadline: int)

  /** Whole minutes to the deadline, truncated toward zero as `Long` division does. */
  function MinutesRemaining(deadline: int, now: int): int
  {
    TruncDiv(deadline - now, MillisPerMinute)
  }

  /** The decision once both the date and the time have parsed. */
  function DecideAt(deadline: int, now: int): (d: Decision)
    ensures MinutesRemaining(deadline, now) <= 0 ==> d == Skip
    ensures 0 < MinutesRemaining(deadline, now) <= ReminderLeadMinutes ==> d == Soon(MinutesRemaining(deadline, now), deadline)
    ensures MinutesRemaining(deadline, now) > ReminderLeadMinutes ==> d == Later(Some(deadline - ReminderLead), deadline)
  {
    var minutes := MinutesRemaining(deadline, now);
    if minutes <= 0 then Skip
    else if minutes <= ReminderLeadMinutes then Soon(minutes, deadline)
    else
      var reminderAt := deadline - ReminderLead;
      Later(if reminderAt > now then Some(reminderAt) else None, deadline)
  }

  function Decide(t: Task, env: Env): (d: Decision)
    ensures t.status != StatusName(Pending) ==> d == Skip
    ensures IsNullOrEmpty(t.deadlineDate) || IsNullOrEmpty(t.deadlineTime) ==> d == Skip
    ensures d == NeedPermission <==>
              t.status == StatusName(Pending) && !IsNullOrEmpty(t.deadlineDate) && !IsNullOrEmpty(t.deadlineTime) &&
              !env.canScheduleExact
  {
    if t.status != StatusName(Pending) then Skip
    else if IsNullOrEmpty(t.deadlineDate) || IsNullOrEmpty(t.deadlineTime) then Skip
    else if !env.canScheduleExact then NeedPermission
    else match FirstParse(DateFormats, t.deadlineDate.value, env.parseDate)
      case None => Skip
      case Some(date) =>
        match env.parseTime(t.deadlineTime.value)
        case None => Failed
        case Some(time) => DecideAt(env.combine(date, time), env.now)
  }

  /** `scheduleNotificationAtTime`: the alarm replaces whatever the key held. */
  function SetAlarm(s: State, t: Task, triggerAt: int, isReminder: bool, key: string): State
  {
    State(s.alarms[key := Alarm(PayloadOf(t), triggerAt, isReminder, if isReminder then Some(ReminderLeadMinutes) else None)],
          s.notices)
  }

  function Notify(s: State, n: Notice): State
  {
    State(s.alarms, s.notices + [n])
  }

  /** The state after carrying out a decision for a task. */
  function Apply(s: State, t: Task, d: Decision): State
  {
    match d
    case Skip => s
    case NeedPermission => Notify(s, PermissionNotice)
    case Failed => Notify(s, ErrorNotice(t))
    case Soon(minutes, deadline) =>
      SetAlarm(Notify(s, Broadcast(PayloadOf(t), minutes)), t, deadline, false, DeadlineKey(t.uuid))
    case Later(reminderAt, deadline) =>
      var s' := if reminderAt.Some? then SetAlarm(s, t, reminderAt.value, true, ReminderKey(t.uuid)) else s;
      SetAlarm(s', t, deadline, false, DeadlineKey(t.uuid))
  }

  /**
   * `createNotificationsForTask`: alarms are only added or replaced, under
   * the task's own two keys, and at most one notice is sent.
   */
  function Created(s: State, t: Task, env: Env): (r: State)
    ensures s.alarms.Keys <= r.alarms.Keys <= s.alarms.Keys + {ReminderKey(t.uuid), DeadlineKey(t.uuid)}
    ensures s.notices <= r.notices && |r.notices| <= |s.notices| + 1
  {
    Apply(s, t, Decide(t, env))
  }

  /** `cancelTaskReminder`. */
  function Cleared(s: State, t: Task): (r: State)
    ensures forall k :: k in TaskKeys(t.uuid) ==> k !in r.alarms
    ensures r.alarms.Keys <= s.alarms.Keys
    ensures r.notices == s.notices
  {
    State(s.alarms - TaskKeys(t.uuid), s.notices)
  }

  /** One step of `rescheduleAllTasks`. */
  function RescheduleStep(s: State, t: Task, env: Env): State
  {
    if t.status == StatusName(Pending) then Created(Cleared(s, t), t, env) else s
  }

  /** `rescheduleAllTasks`, task by task from the front. */
  function Rescheduled(s: State, tasks: seq<Task>, env: Env): (r: State)
    ensures s.notices <= r.notices && |r.notices| <= |s.notices| + |tasks|
    decreases |tasks|
  {
    if |tasks| == 0 then s
    else RescheduleStep(Rescheduled(s, tasks[..|tasks| - 1], env), tasks[|tasks| - 1], env)
  }

  class NotificationScheduler {
    var alarms: map<string, Alarm>
    var notices: seq<Notice>

    constructor ()
      ensures alarms == map[] && notices == []
    {
      alarms := map[];
      notices := [];
    }

    method ScheduleNotificationAtTime(t: Task, triggerAt: int, isReminder: bool, key: string)
      modifies this
      ensures State(alarms, notices) == SetAlarm(State(old(alarms), old(notices)), t, triggerAt, isReminder, key)
    {
      var minutes := if isReminder then Some(ReminderLeadMinutes) else None;
      alarms := alarms[key := Alarm(PayloadOf(t), triggerAt, isReminder, minutes)];
    }

    /** `createNotificationsForTask`. */
    method CreateNotificationsForTask(t: Task, env: Env)
      modifies this
      ensures State(alarms, notices) == Created(State(old(alarms), old(notices)), t, env)
    {
      if t.status != StatusName(Pending) {
        return;
      }
      if IsNullOrEmpty(t.deadlineDate) || IsNullOrEmpty(t.deadlineTime) {
        return;
      }
      if !env.canScheduleExact {
        notices := notices + [PermissionNotice];
        return;
      }
      var date := ParseDeadlineDate(t.deadlineDate.value, env.parseDate);
      if date.None? {
        return;
      }
      var time := env.parseTime(t.deadlineTime.value);
      if time.None? {
        notices := notices + [ErrorNotice(t)];
        return;
      }
      var deadline := env.combine(date.value, time.value);
      var minutesRemaining := MinutesRemaining(deadline, env.now);
      if minutesRemaining <= 0 {
        return;
      }
      if minutesRemaining <= ReminderLeadMinutes {
        notices := notices + [Broadcast(PayloadOf(t), minutesRemaining)];
      } else {
        var reminderAt := deadline - ReminderLead;
        if reminderAt > env.now {
          ScheduleNotificationAtTime(t, reminderAt, true, ReminderKey(t.uuid));
        }
      }
      ScheduleNotificationAtTime(t, deadline, false, DeadlineKey(t.uuid));
    }

    /** `cancelTaskReminder`: the reminder, deadline and bare-uuid entries go, nothing else changes. */
    method CancelTaskReminder(t: Task)
      modifies this
      ensures State(alarms, notices) == Cleared(State(old(alarms), old(notices)), t)
    {
      alarms := alarms - {ReminderKey(t.uuid)};
      alarms := alarms - {DeadlineKey(t.uuid)};
      alarms := alarms - {t.uuid};
    }

    /** `rescheduleAllTasks`. */
    method RescheduleAllTasks(tasks: seq<Task>, env: Env)
      modifies this
      ensures State(alarms, notices) == Rescheduled(State(old(alarms), old(notices)), tasks, env)
    {
      var i := 0;
      while i < |tasks|
        invariant 0 <= i <= |tasks|
        invariant State(alarms, notices) == Rescheduled(State(old(alarms), old(notices)), tasks[..i], env)
      {
        assert tasks[..i + 1][..i] == tasks[..i];
        var t := tasks[i];
        if t.status == StatusName(Pending) {
          CancelTaskReminder(t);
          CreateNotificationsForTask(t, env);
        }
        i := i + 1;
      }
      assert tasks[..|tasks|] == tasks;
    }
  }

  // ---------------------------------------------------------------------------
  // Properties of the decision
  // ---------------------------------------------------------------------------

  /** A task that is not pending, or has no deadline date or time, changes nothing. */
  lemma NothingWithoutPendingDeadline(s: State, t: Task, env: Env)
    requires t.status != StatusName(Pending) || IsNullOrEmpty(t.deadlineDate) || IsNullOrEmpty(t.deadlineTime)
    ensures Created(s, t, env) == s
  {
  }

  /** After 16 whole minutes or more, the reminder lies strictly after the clock, so it is always set. */
  lemma ReminderAfterNow(deadline: int, now: int)
    requires MinutesRemaining(deadline, now) > ReminderLeadMinutes
    ensures deadline - ReminderLead > now
  {
    var m := MinutesRemaining(deadline, now);
    assert deadline - now >= m * MillisPerMinute;
    assert m * MillisPerMinute >= (ReminderLeadMinutes + 1) * MillisPerMinute;
  }

  /** A deadline less than a minute away, or past, schedules nothing. */
  lemma PastDeadlineNothing(deadline: int, now: int)
    requires deadline - now < MillisPerMinute
    ensures DecideAt(deadline, now) == Skip
  {
  }

  /** The `Later` branch always carries its reminder. */
  lemma LaterHasReminder(t: Task, env: Env)
    requires Decide(t, env).Later?
    ensures Decide(t, env).reminderAt == Some(Decide(t, env).deadline - ReminderLead)
    ensures Decide(t, env).reminderAt.value > env.now
  {
    var date := FirstParse(DateFormats, t.deadlineDate.value, env.parseDate).value;
    var deadline := env.combine(date, env.parseTime(t.deadlineTime.value).value);
    if MinutesRemaining(deadline, env.now) > ReminderLeadMinutes {
      ReminderAfterNow(deadline, env.now);
    }
  }

  /** What a task with a parsed deadline gets, by the minutes left. */
  lemma ScheduledByMinutes(s: State, t: Task, env: Env, deadline: int)
    requires t.status == StatusName(Pending) && !IsNullOrEmpty(t.deadlineDate) && !IsNullOrEmpty(t.deadlineTime)
    requires env.canScheduleExact
    requires FirstParse(DateFormats, t.deadlineDate.value, env.parseDate).Some?
    requires env.parseTime(t.deadlineTime.value).Some?
    requires deadline == env.combine(FirstParse(DateFormats, t.deadlineDate.value, env.parseDate).value,
                                     env.parseTime(t.deadlineTime.value).value)
    ensures var m := MinutesRemaining(deadline, env.now);
            var after := Created(s, t, env);
            && (m <= 0 ==> after == s)
            && (0 < m <= ReminderLeadMinutes ==>
                  && after.notices == s.notices + [Broadcast(PayloadOf(t), m)]
                  && after.alarms == s.alarms[DeadlineKey(t.uuid) := Alarm(PayloadOf(t), deadline, false, None)])
            && (m > ReminderLeadMinutes ==>
                  && after.notices == s.notices
                  && after.alarms == s.alarms[ReminderKey(t.uuid) := Alarm(PayloadOf(t), deadline - ReminderLead, true, Some(15))]
                                             [DeadlineKey(t.uuid) := Alarm(PayloadOf(t), deadline, false, None)])
  {
    if MinutesRemaining(deadline, env.now) > ReminderLeadMinutes {
      ReminderAfterNow(deadline, env.now);
    }
  }

  /** Scheduling only ever writes the task's own reminder and deadline keys and only appends notices. */
  lemma CreatedTouchesOwnKeys(s: State, t: Task, env: Env, k: string)
    requires k != ReminderKey(t.uuid) && k != DeadlineKey(t.uuid)
    ensures k in Created(s, t, env).alarms <==> k in s.alarms
    ensures k in s.alarms ==> Created(s, t, env).alarms[k] == s.alarms[k]
  {
  }

  /** Scheduling a task twice leaves the same alarm table as scheduling it once: one entry per key. */
  lemma CreatedTwiceSameAlarms(s: State, t: Task, env: Env)
    ensures Created(Created(s, t, env), t, env).alarms == Created(s, t, env).alarms
  {
  }

  /** Cancelling removes exactly the task's three keys. */
  lemma ClearedRemovesOwnKeys(s: State, t: Task, k: string)
    ensures k in Cleared(s, t).alarms <==> k in s.alarms && k !in TaskKeys(t.uuid)
    ensures k in Cleared(s, t).alarms ==> Cleared(s, t).alarms[k] == s.alarms[k]
    ensures Cleared(s, t).notices == s.notices
  {
  }

  // ---------------------------------------------------------------------------
  // Properties of rescheduling
  // ---------------------------------------------------------------------------

  /** Some pending task in `tasks` owns key `k`. */
  predicate OwnedByPending(tasks: seq<Task>, k: string)
  {
    exists i :: 0 <= i < |tasks| && tasks[i].status == StatusName(Pending) && k in TaskKeys(tasks[i].uuid)
  }

  /** An entry no pending task owns survives rescheduling unchanged. */
  lemma {:induction false} RescheduleKeepsOthers(s: State, tasks: seq<Task>, env: Env, k: string)
    requires !OwnedByPending(tasks, k)
    ensures k in Rescheduled(s, tasks, env).alarms <==> k in s.alarms
    ensures k in s.alarms ==> Rescheduled(s, tasks, env).alarms[k] == s.alarms[k]
  {
    if |tasks| > 0 {
      var init := tasks[..|tasks| - 1];
      var t := tasks[|tasks| - 1];
      assert !OwnedByPending(init, k) by {
        forall i | 0 <= i < |init| ensures !(init[i].status == StatusName(Pending) && k in TaskKeys(init[i].uuid)) {
          assert init[i] == tasks[i];
        }
      }
      RescheduleKeepsOthers(s, init, env, k);
      var mid := Rescheduled(s, init, env);
      if t.status == StatusName(Pending) {
        assert k !in TaskKeys(t.uuid);
        ClearedRemovesOwnKeys(mid, t, k);
        CreatedTouchesOwnKeys(Cleared(mid, t), t, env, k);
      }
    }
  }

  /** A list without pending tasks changes nothing. */
  lemma {:induction false} RescheduleNonePending(s: State, tasks: seq<Task>, env: Env)
    requires forall i :: 0 <= i < |tasks| ==> tasks[i].status != StatusName(Pending)
    ensures Rescheduled(s, tasks, env) == s
  {
    if |tasks| > 0 {
      RescheduleNonePending(s, tasks[..|tasks| - 1], env);
    }
  }
}
