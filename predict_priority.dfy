/**
 * The priority of a task, from 0 (low) to 2 (high): the features handed to
 * the on-device model, and the keyword and deadline rules used when the
 * model fails.
 */
module PredictTaskPriorityUseCase {
  import opened Wrappers
  import opened Text
  import opened TaskModel

  /** The task types the app knows. */
  datatype TaskType = Business | Home | Hobbies | Study | Shopping

  /** `TaskType.valueOf(name)`: the type of that name, if any. */
  function TypeOf(name: string): Option<TaskType>
  {
    if name == "BUSINESS" then Some(Business)
    else if name == "HOME" then Some(Home)
    else if name == "HOBBIES" then Some(Hobbies)
    else if name == "STUDY" then Some(Study)
    else if name == "SHOPPING" then Some(Shopping)
    else None
  }

  /** The inputs of the priority model. */
  datatype Features = Features(
    daysUntilDeadline: int,
    isTypeMeeting: bool,
    isTypePersonal: bool,
    isTypeWork: bool,
    isStatusCompleted: bool,
    isStatusInProgress: bool,
    isStatusPending: bool)

  /** The flags computed in `invoke`, an unknown type counting as `HOME`. */
  function FeaturesOf(task: Task, days: int): (f: Features)
    ensures f.daysUntilDeadline == days
    ensures var t := TypeOf(task.taskType).GetOr(Home);
            && (f.isTypeMeeting <==> t == Business)
            && (f.isTypePersonal <==> t == Home || t == Hobbies)
            && (f.isTypeWork <==> t == Business || t == Study)
    ensures f.isStatusCompleted <==> task.status == "COMPLETED"
    ensures f.isStatusInProgress <==> task.status == "IN_PROGRESS"
    ensures f.isStatusPending <==> task.status == "PENDING"
  {
    var t := TypeOf(task.taskType).GetOr(Home);
    Features(
      daysUntilDeadline := days,
      isTypeMeeting := t == Business,
      isTypePersonal := t == Home || t == Hobbies,
      isTypeWork := t == Business || t == Study,
      isStatusCompleted := task.status == StatusName(Completed),
      isStatusInProgress := task.status == StatusName(InProgress),
      isStatusPending := task.status == StatusName(Pending))
  }

  /** A type name that is none of the known ones is treated as `HOME`: personal, neither meeting nor work. */
  lemma UnknownTypeIsHome(task: Task, days: int)
    requires TypeOf(task.taskType).None?
    ensures var f := FeaturesOf(task, days);
            f.isTypePersonal && !f.isTypeMeeting && !f.isTypeWork
  {
  }

  /** `BUSINESS` is the only type that sets two type flags; no type sets both personal and work. */
  lemma TypeFlagsShape(task: Task, days: int)
    ensures var f := FeaturesOf(task, days);
            && (f.isTypeMeeting ==> f.isTypeWork)
            && !(f.isTypePersonal && f.isTypeWork)
            && (f.isTypeMeeting && f.isTypeWork <==> task.taskType == "BUSINESS")
  {
  }

  /** At most one status flag is set, and exactly one for a status the app writes. */
  lemma StatusFlagsExclusive(task: Task, days: int)
    ensures var f := FeaturesOf(task, days);
            && !(f.isStatusCompleted && f.isStatusInProgress)
            && !(f.isStatusCompleted && f.isStatusPending)
            && !(f.isStatusInProgress && f.isStatusPending)
    ensures var f := FeaturesOf(task, days);
            StatusOf(task.status) in {Some(Completed), Some(InProgress), Some(Pending)} ==>
              f.isStatusCompleted || f.isStatusInProgress || f.isStatusPending
  {
  }

  const MillisPerDay := 24 * 60 * 60 * 1000

  /**
   * `calculateDaysUntilDeadline`: whole days, rounded toward zero, from
   * today's midnight to the deadline; 7 when there is no deadline or it does
   * not parse. `parseMillis` is the `yyyy-MM-dd` date parser of the platform.
   */
  function DaysUntilDeadline(deadline: Option<string>, parseMillis: string -> Option<int>, todayMidnight: int): (d: int)
    ensures IsNullOrBlank(deadline) ==> d == 7
    ensures !IsNullOrBlank(deadline) && parseMillis(deadline.value).None? ==> d == 7
    ensures !IsNullOrBlank(deadline) && parseMillis(deadline.value).Some? ==>
      d == TruncDiv(parseMillis(deadline.value).value - todayMidnight, MillisPerDay)
  {
    if IsNullOrBlank(deadline) then 7
    else match parseMillis(deadline.value)
      case None => 7
      case Some(ms) => TruncDiv(ms - todayMidnight, MillisPerDay)
  }

  /** Whether `text` contains one of `keywords`. */
  function AnyContained(text: string, keywords: seq<string>): (r: bool)
    ensures r <==> exists i :: 0 <= i < |keywords| && Contains(text, keywords[i])
  {
    if |keywords| == 0 then false
    else if Contains(text, keywords[0]) then true
    else
      var r := AnyContained(text, keywords[1..]);
      assert forall i :: 1 <= i < |keywords| ==> keywords[i] == keywords[1..][i - 1];
      r
  }

  const UrgentKeywords := ["urgent", "asap", "immediately", "today", "critical"]
  const ImportantKeywords := ["important", "priority", "soon", "tomorrow"]

  /** The text the rules look at: title and description, lower-cased. */
  function RulesText(task: Task): string
  {
    Lower(task.title + " " + task.description.GetOr(""))
  }

  /** The priority the deadline alone gives: 2 within a day (or overdue), 1 within three days, else 0. */
  function DeadlinePriority(days: int): (p: int)
    ensures 0 <= p <= 2
    ensures p == 2 <==> days <= 1
    ensures p == 1 <==> 1 < days <= 3
    ensures p == 0 <==> days > 3
  {
    if days <= 1 then 2 else if days <= 3 then 1 else 0
  }

  /** A nearer deadline never lowers the priority. */
  lemma DeadlinePriorityMonotone(d1: int, d2: int)
    requires d1 <= d2
    ensures DeadlinePriority(d1) >= DeadlinePriority(d2)
  {
  }

  /** `predictPriorityWithRules`. */
  function PriorityWithRules(task: Task, days: int): (p: int)
    ensures 0 <= p <= 2
    ensures AnyContained(RulesText(task), UrgentKeywords) ==> p == 2
    ensures !AnyContained(RulesText(task), UrgentKeywords) && AnyContained(RulesText(task), ImportantKeywords) ==> p == 1
    ensures !AnyContained(RulesText(task), UrgentKeywords) && !AnyContained(RulesText(task), ImportantKeywords) ==>
              p == DeadlinePriority(days)
  {
    var text := RulesText(task);
    if AnyContained(text, UrgentKeywords) then 2
    else if AnyContained(text, ImportantKeywords) then 1
    else DeadlinePriority(days)
  }

  /** An urgent word anywhere in the title wins over any deadline. */
  lemma UrgentTitleWins(task: Task, days: int, before: string, after: string)
    requires task.title == before + "urgent" + after
    ensures PriorityWithRules(task, days) == 2
  {
    var rest := after + " " + task.description.GetOr("");
    assert task.title + " " + task.description.GetOr("") == before + "urgent" + rest;
    LowerAppend(before + "urgent", rest);
    LowerAppend(before, "urgent");
    assert Lower("urgent") == "urgent";
    assert OccursAt("urgent", Lower(before) + "urgent", |before|);
    ContainsInAppend(Lower(before) + "urgent", Lower(rest), "urgent");
    assert Contains(RulesText(task), UrgentKeywords[0]);
  }

  /**
   * `invoke`: the model's answer when it gives one; the rules, on the same
   * features' day count, when it throws. The model is a parameter.
   */
  function Invoke(task: Task, predictor: Features -> Option<int>,
                  parseMillis: string -> Option<int>, todayMidnight: int): (p: int)
    ensures var f := FeaturesOf(task, DaysUntilDeadline(task.deadlineDate, parseMillis, todayMidnight));
            && (predictor(f).Some? ==> p == predictor(f).value)
            && (predictor(f).None? ==> p == PriorityWithRules(task, f.daysUntilDeadline) && 0 <= p <= 2)
  {
    var days := DaysUntilDeadline(task.deadlineDate, parseMillis, todayMidnight);
    var f := FeaturesOf(task, days);
    match predictor(f)
    case Some(p) => p
    case None => PriorityWithRules(task, days)
  }

  /** With the model failing and no deadline, a task without keywords is low priority (7 days away). */
  lemma NoDeadlineFallback(task: Task, parseMillis: string -> Option<int>, todayMidnight: int)
    requires task.deadlineDate.None?
    requires !AnyContained(RulesText(task), UrgentKeywords) && !AnyContained(RulesText(task), ImportantKeywords)
    ensures Invoke(task, _ => None, parseMillis, todayMidnight) == 0
  {
  }
}
