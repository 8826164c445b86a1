/**
 * The synchronous keyword-and-deadline priority analysis. Calendar
 * arithmetic is a parameter: `daysUntil(year, month, day)` is the number of
 * days from today to that date, both at midnight, as the platform calendar
 * computes it (month counted from 0, out-of-range fields rolled over).
 */
module MLKitTaskAnalyzer {
  import opened Wrappers
  import opened Text
  import opened TaskModel
  import PredictTaskPriorityUseCase

  const UrgentKeywords := ["urgent", "imm\U{00E9}diat", "critique", "aujourd'hui", "asap", "emergency",
                           "projet urgent", "d\U{00E9}p\U{00F4}t urgent"]
  const ImportantKeywords := ["important", "priorit\U{00E9}", "n\U{00E9}cessaire", "bient\U{00F4}t", "soon"]

  /** Whether one of `keywords` occurs in `text`, both compared lower-cased. */
  function ContainsAnyIgnoringCase(text: string, keywords: seq<string>): (r: bool)
    ensures r <==> exists i :: 0 <= i < |keywords| && Contains(Lower(text), Lower(keywords[i]))
  {
    if |keywords| == 0 then false
    else if Contains(Lower(text), Lower(keywords[0])) then true
    else
      var r := ContainsAnyIgnoringCase(text, keywords[1..]);
      assert forall i :: 1 <= i < |keywords| ==> keywords[i] == keywords[1..][i - 1];
      r
  }

  /** `containsUrgentKeywords`: some urgent keyword occurs in the lower-cased text. */
  function ContainsUrgentKeywords(text: string): (r: bool)
    ensures r <==> exists i :: 0 <= i < |UrgentKeywords| && Contains(Lower(text), Lower(UrgentKeywords[i]))
  {
    ContainsAnyIgnoringCase(text, UrgentKeywords)
  }

  /** `containsImportantKeywords`: some important keyword occurs in the lower-cased text. */
  function ContainsImportantKeywords(text: string): (r: bool)
    ensures r <==> exists i :: 0 <= i < |ImportantKeywords| && Contains(Lower(text), Lower(ImportantKeywords[i]))
  {
    ContainsAnyIgnoringCase(text, ImportantKeywords)
  }

  /** The date a deadline string stands for: a calendar date, or today's date. */
  datatype DeadlineDay = OnDate(year: int, month: int, day: int) | Today

  /**
   * `parseDeadlineDate`: three `-`-separated integers are a year, a month
   * (1-based in the text, 0-based in the calendar) and a day; anything else
   * is today.
   */
  function ParseDeadlineDate(s: string): (d: DeadlineDay)
    ensures |Split(s, '-')| != 3 ==> d == Today
    ensures var parts := Split(s, '-');
            |parts| == 3 && ToIntOrNull(parts[0]).Some? && ToIntOrNull(parts[1]).Some? && ToIntOrNull(parts[2]).Some? ==>
              d == OnDate(ToIntOrNull(parts[0]).value, ToIntOrNull(parts[1]).value - 1, ToIntOrNull(parts[2]).value)
    ensures var parts := Split(s, '-');
            |parts| == 3 && (ToIntOrNull(parts[0]).None? || ToIntOrNull(parts[1]).None? || ToIntOrNull(parts[2]).None?) ==>
              d == Today
  {
    var parts := Split(s, '-');
    if |parts| != 3 then Today
    else match (ToIntOrNull(parts[0]), ToIntOrNull(parts[1]), ToIntOrNull(parts[2]))
      case (Some(y), Some(m), Some(d)) => OnDate(y, m - 1, d)
      case _ => Today
  }

  /** A string without a `-` is a single part, so it stands for today. */
  lemma NoDashIsToday(s: string)
    requires '-' !in s
    ensures ParseDeadlineDate(s) == Today
  {
    assert IndexOf(s, '-').None?;
  }

  /** Days until the deadline; `Int.MAX_VALUE` when there is none. */
  function DaysUntilDeadline(deadline: Option<string>, daysUntil: (int, int, int) -> int): (n: int)
    ensures deadline.None? ==> n == Int32Max
    ensures deadline.Some? && ParseDeadlineDate(deadline.value) == Today ==> n == 0
    ensures deadline.Some? && ParseDeadlineDate(deadline.value).OnDate? ==>
              var d := ParseDeadlineDate(deadline.value);
              n == daysUntil(d.year, d.month, d.day)
  {
    match deadline
    case None => Int32Max
    case Some(s) =>
      match ParseDeadlineDate(s)
      case Today => 0
      case OnDate(y, m, d) => daysUntil(y, m, d)
  }

  /** `analyzePrioritySync`. */
  function AnalyzePrioritySync(task: Task, daysUntil: (int, int, int) -> int): (p: int)
    ensures 0 <= p <= 2
    ensures var text := task.title + " " + task.description.GetOr("");
            && (ContainsUrgentKeywords(text) ==> p == 2)
            && (!ContainsUrgentKeywords(text) && ContainsImportantKeywords(text) ==> p == 1)
            && (!ContainsUrgentKeywords(text) && !ContainsImportantKeywords(text) ==>
                  p == PredictTaskPriorityUseCase.DeadlinePriority(DaysUntilDeadline(task.deadlineDate, daysUntil)))
  {
    var text := task.title + " " + task.description.GetOr("");
    if ContainsUrgentKeywords(text) then 2
    else if ContainsImportantKeywords(text) then 1
    else PredictTaskPriorityUseCase.DeadlinePriority(DaysUntilDeadline(task.deadlineDate, daysUntil))
  }

  /** Without keywords: no deadline is low priority, a deadline that does not parse counts as today and is high. */
  lemma DeadlineFallbacks(task: Task, daysUntil: (int, int, int) -> int)
    requires var text := task.title + " " + task.description.GetOr("");
             !ContainsUrgentKeywords(text) && !ContainsImportantKeywords(text)
    ensures task.deadlineDate.None? ==> AnalyzePrioritySync(task, daysUntil) == 0
    ensures task.deadlineDate.Some? && '-' !in task.deadlineDate.value ==> AnalyzePrioritySync(task, daysUntil) == 2
  {
    if task.deadlineDate.Some? && '-' !in task.deadlineDate.value {
      NoDashIsToday(task.deadlineDate.value);
    }
  }

  /** Keywords are matched ignoring case. */
  lemma KeywordCaseExample()
    ensures ContainsUrgentKeywords("ASAP")
  {
    var k := UrgentKeywords[4];
    assert Lower("ASAP") == Lower(k);
    assert OccursAt(Lower(k), Lower("ASAP"), 0);
  }
}
