/**
 * Calendar helpers of the repository: the per-status counters of a day, the
 * recurrence rule sent to Google Calendar (the RRULE property of section
 * 3.8.5.3 of RFC 5545, whose value is the RECUR value of section 3.3.10),
 * and the date reader that accepts several layouts. The date libraries are
 * parameters.
 */
module CalendarRepositoryModel {
  import opened Wrappers
  import opened Text
  import opened TaskModel

  datatype CalendarEvent = CalendarEvent(
    id: string, title: string, description: string, startTime: string, endTime: string, location: string)

  datatype CalendarItem = GoogleEventItem(event: CalendarEvent) | TaskItem(task: Task)

  // ---------------------------------------------------------------------------
  // DateEvents counters
  // ---------------------------------------------------------------------------

  predicate IsTaskWithStatus(item: CalendarItem, s: TaskStatus)
  {
    item.TaskItem? && item.task.status == StatusName(s)
  }

  /** `items.count { it is TaskItem && it.task.status == s.name }`. */
  function StatusCount(items: seq<CalendarItem>, s: TaskStatus): (n: nat)
    ensures n <= |items|
    ensures n == 0 <==> forall i :: 0 <= i < |items| ==> !IsTaskWithStatus(items[i], s)
    ensures n == |items| <==> forall i :: 0 <= i < |items| ==> IsTaskWithStatus(items[i], s)
  {
    if |items| == 0 then 0
    else
      var rest := StatusCount(items[1..], s);
      assert forall i :: 1 <= i < |items| ==> items[i] == items[1..][i - 1];
      (if IsTaskWithStatus(items[0], s) then 1 else 0) + rest
  }

  /** `items.count { it is GoogleEventItem }`. */
  function GoogleEventCount(items: seq<CalendarItem>): (n: nat)
    ensures n <= |items|
    ensures n == 0 <==> forall i :: 0 <= i < |items| ==> !items[i].GoogleEventItem?
    ensures n == |items| <==> forall i :: 0 <= i < |items| ==> items[i].GoogleEventItem?
  {
    if |items| == 0 then 0
    else
      var rest := GoogleEventCount(items[1..]);
      assert forall i :: 1 <= i < |items| ==> items[i] == items[1..][i - 1];
      (if items[0].GoogleEventItem? then 1 else 0) + rest
  }

  /** A task item whose status is none of the four names. */
  predicate HasUnknownStatus(item: CalendarItem)
  {
    item.TaskItem? && StatusOf(item.task.status).None?
  }

  function UnknownCount(items: seq<CalendarItem>): nat
  {
    if |items| == 0 then 0 else (if HasUnknownStatus(items[0]) then 1 else 0) + UnknownCount(items[1..])
  }

  /** The five counters of one day. */
  function CounterSum(items: seq<CalendarItem>): nat
  {
    StatusCount(items, Completed) + StatusCount(items, Cancelled) + StatusCount(items, InProgress) +
    StatusCount(items, Pending) + GoogleEventCount(items)
  }

  /** Every item is counted by exactly one counter, unless it is a task with an unknown status. */
  lemma {:induction false} CountersPartition(items: seq<CalendarItem>)
    ensures CounterSum(items) + UnknownCount(items) == |items|
  {
    if |items| > 0 {
      CountersPartition(items[1..]);
      var it := items[0];
      if it.TaskItem? {
        var st := StatusOf(it.task.status);
        if st.Some? {
          StatusOfName(Pending);
          StatusOfName(InProgress);
          StatusOfName(Completed);
          StatusOfName(Cancelled);
        }
      }
    }
  }

  lemma {:induction false} UnknownCountZero(items: seq<CalendarItem>)
    ensures UnknownCount(items) == 0 <==> forall i :: 0 <= i < |items| ==> !HasUnknownStatus(items[i])
  {
    if |items| > 0 {
      UnknownCountZero(items[1..]);
      assert forall i :: 1 <= i < |items| ==> items[i] == items[1..][i - 1];
    }
  }

  /** The counters sum to at most the number of items, exactly when every task status is a known name. */
  lemma CounterSumBound(items: seq<CalendarItem>)
    ensures CounterSum(items) <= |items|
    ensures CounterSum(items) == |items| <==> forall i :: 0 <= i < |items| ==> !HasUnknownStatus(items[i])
  {
    CountersPartition(items);
    UnknownCountZero(items);
  }

  // ---------------------------------------------------------------------------
  // Recurrence rule
  // ---------------------------------------------------------------------------

  const Frequencies := ["DAILY", "WEEKLY", "MONTHLY", "YEARLY"]

  /** A day as `java.util.Date` renders it through a calendar: the month and day are in range. */
  datatype Day = Day(year: nat, month: nat, day: nat)
  type CalendarDay = d: Day | 1 <= d.month <= 12 && 1 <= d.day <= 31 witness Day(1970, 1, 1)

  /** The fields of a recurrence rule. */
  datatype Recur = Recur(freq: string, interval: Option<nat>, until: Option<CalendarDay>)

  /** `SimpleDateFormat("yyyyMMdd").format` under a locale with ASCII digits: the year in at least four digits, then two for the month and two for the day. */
  function FormatBasicDate(d: CalendarDay): (s: string)
    ensures AllDigits(s) && |s| >= 8
  {
    PadNat(d.year, 4) + PadNat(d.month, 2) + PadNat(d.day, 2)
  }

  /**
   * What `buildRecurrenceRule` encodes for a task. `parseEnd` is
   * `SimpleDateFormat("yyyy-MM-dd").parse`, `None` where it throws.
   */
  function RecurOf(t: Task, parseEnd: string -> Option<CalendarDay>): (r: Option<Recur>)
    ensures r.Some? <==> t.isRecurring && t.recurrencePattern.Some? && Upper(t.recurrencePattern.value) in Frequencies
    ensures r.Some? ==> r.value.freq == Upper(t.recurrencePattern.value)
    ensures r.Some? ==> (r.value.interval.Some? <==> t.recurrenceInterval > 0)
    ensures r.Some? && r.value.interval.Some? ==> r.value.interval.value == t.recurrenceInterval
    ensures r.Some? && IsNullOrEmpty(t.recurrenceEndDate) ==> r.value.until.None?
    ensures r.Some? && !IsNullOrEmpty(t.recurrenceEndDate) ==> r.value.until == parseEnd(t.recurrenceEndDate.value)
  {
    if !t.isRecurring || t.recurrencePattern.None? then None
    else
      var freq := Upper(t.recurrencePattern.value);
      if freq !in Frequencies then None
      else
        Some(Recur(freq,
                   if t.recurrenceInterval > 0 then Some(t.recurrenceInterval) else None,
                   if IsNullOrEmpty(t.recurrenceEndDate) then None else parseEnd(t.recurrenceEndDate.value)))
  }

  /** The `;`-separated parts of the rule value, `FREQ` first. */
  function RuleParts(r: Recur): seq<string>
  {
    ["FREQ=" + r.freq]
    + (if r.interval.Some? then ["INTERVAL=" + NatToString(r.interval.value)] else [])
    + (if r.until.Some? then ["UNTIL=" + FormatBasicDate(r.until.value)] else [])
  }

  /** The rule text for a task: empty when it does not recur or its pattern is unknown. */
  function RecurrenceRule(t: Task, parseEnd: string -> Option<CalendarDay>): (rule: string)
    ensures !t.isRecurring ==> rule == ""
    ensures rule == "" <==> RecurOf(t, parseEnd).None?
  {
    match RecurOf(t, parseEnd)
    case None => ""
    case Some(r) => "RRULE:" + Join(RuleParts(r), ';')
  }

  /** `buildRecurrenceRule`, appending to a builder and returning early as the source does. */
  method BuildRecurrenceRule(t: Task, parseEnd: string -> Option<CalendarDay>) returns (rule: string)
    ensures rule == RecurrenceRule(t, parseEnd)
  {
    if !t.isRecurring {
      return "";
    }
    rule := "RRULE:";
    // each branch of the `when` appends `FREQ=` and the name it matched
    var pattern := if t.recurrencePattern.Some? then Some(Upper(t.recurrencePattern.value)) else None;
    if pattern.None? || pattern.value !in Frequencies {
      return "";
    }
    rule := rule + ("FREQ=" + pattern.value);
    ghost var r := RecurOf(t, parseEnd).value;
    if t.recurrenceInterval > 0 {
      rule := rule + (";INTERVAL=" + IntToString(t.recurrenceInterval));
    } else {
      assert rule == rule + IntervalText(r.interval);
    }
    assert rule == "RRULE:" + ("FREQ=" + r.freq) + IntervalText(r.interval);
    ghost var beforeUntil := rule;
    if !IsNullOrEmpty(t.recurrenceEndDate) {
      var endDate := parseEnd(t.recurrenceEndDate.value);
      if endDate.Some? {
        rule := rule + (";UNTIL=" + FormatBasicDate(endDate.value));
      }
    }
    assert rule == beforeUntil + UntilText(r.until);
    RuleTextFlat(r);
  }

  function IntervalText(interval: Option<nat>): string
  {
    if interval.Some? then ";INTERVAL=" + NatToString(interval.value) else ""
  }

  function UntilText(until: Option<CalendarDay>): string
  {
    if until.Some? then ";UNTIL=" + FormatBasicDate(until.value) else ""
  }

  /** The `FREQ` and optional `INTERVAL` parts, the start of `RuleParts`. */
  function HeadParts(r: Recur): seq<string>
  {
    ["FREQ=" + r.freq] + (if r.interval.Some? then ["INTERVAL=" + NatToString(r.interval.value)] else [])
  }

  lemma HeadTextFlat(r: Recur)
    ensures |HeadParts(r)| >= 1
    ensures Join(HeadParts(r), ';') == "FREQ=" + r.freq + IntervalText(r.interval)
  {
    var first := "FREQ=" + r.freq;
    if r.interval.Some? {
      var i := "INTERVAL=" + NatToString(r.interval.value);
      JoinAppend([first], i, ';');
      assert [';'] + i == IntervalText(r.interval);
    } else {
      assert HeadParts(r) == [first];
    }
  }

  /** The joined parts, written out as the builder appends them. */
  lemma RuleTextFlat(r: Recur)
    ensures "RRULE:" + Join(RuleParts(r), ';') == "RRULE:" + ("FREQ=" + r.freq) + IntervalText(r.interval) + UntilText(r.until)
  {
    var first := "FREQ=" + r.freq;
    var head := HeadParts(r);
    HeadTextFlat(r);
    var j := Join(head, ';');
    if r.until.Some? {
      var u := "UNTIL=" + FormatBasicDate(r.until.value);
      assert RuleParts(r) == head + [u];
      JoinAppend(head, u, ';');
      assert [';'] + u == UntilText(r.until);
      Associative("RRULE:", first, IntervalText(r.interval), UntilText(r.until));
    } else {
      assert RuleParts(r) == head;
      Associative("RRULE:", first, IntervalText(r.interval), "");
    }
  }

  lemma Associative(a: string, b: string, c: string, d: string)
    ensures a + (b + c + d) == a + b + c + d
    ensures a + (b + c) == a + b + c
  {
  }

  // ---------------------------------------------------------------------------
  // Reading a rule back
  // ---------------------------------------------------------------------------

  predicate HasPrefix(s: string, p: string)
  {
    |p| <= |s| && s[..|p|] == p
  }

  function DecodeNat(s: string): Option<nat>
  {
    if |s| > 0 && AllDigits(s) then Some(DigitsValue(s)) else None
  }

  /** A `yyyyMMdd` text: the last four digits are the month and the day, the rest the year. */
  function DecodeBasicDate(s: string): Option<CalendarDay>
  {
    if |s| < 8 || !AllDigits(s) then None
    else
      var year := DigitsValue(s[..|s| - 4]);
      var month := DigitsValue(s[|s| - 4..|s| - 2]);
      var day := DigitsValue(s[|s| - 2..]);
      if 1 <= month <= 12 && 1 <= day <= 31 then Some(Day(year, month, day)) else None
  }

  /** The optional `INTERVAL` part at the head of `parts`. */
  function TakeInterval(parts: seq<string>): (Option<nat>, seq<string>)
  {
    if |parts| > 0 && HasPrefix(parts[0], "INTERVAL=") && DecodeNat(parts[0][9..]).Some? then
      (DecodeNat(parts[0][9..]), parts[1..])
    else (None, parts)
  }

  /** The optional `UNTIL` part at the head of `parts`. */
  function TakeUntil(parts: seq<string>): (Option<CalendarDay>, seq<string>)
  {
    if |parts| > 0 && HasPrefix(parts[0], "UNTIL=") && DecodeBasicDate(parts[0][6..]).Some? then
      (DecodeBasicDate(parts[0][6..]), parts[1..])
    else (None, parts)
  }

  /** Reads the fields back from the parts of a rule value. */
  function DecodeParts(parts: seq<string>): Option<Recur>
  {
    if |parts| == 0 || !HasPrefix(parts[0], "FREQ=") then None
    else
      var (interval, rest) := TakeInterval(parts[1..]);
      var (until, rest') := TakeUntil(rest);
      if |rest'| == 0 then Some(Recur(parts[0][5..], interval, until)) else None
  }

  /** Reads the fields back from a rule text. */
  function DecodeRule(rule: string): Option<Recur>
  {
    if !HasPrefix(rule, "RRULE:") then None else DecodeParts(Split(rule[6..], ';'))
  }

  lemma FormatBasicDateDecodes(d: CalendarDay)
    ensures DecodeBasicDate(FormatBasicDate(d)) == Some(d)
  {
    var y, m, dd := PadNat(d.year, 4), PadNat(d.month, 2), PadNat(d.day, 2);
    NatToStringLength(d.month, 2);
    NatToStringLength(d.day, 2);
    var s := y + m + dd;
    assert |m| == 2 && |dd| == 2;
    assert s[..|s| - 4] == y && s[|s| - 4..|s| - 2] == m && s[|s| - 2..] == dd;
    PadNatValue(d.year, 4);
    PadNatValue(d.month, 2);
    PadNatValue(d.day, 2);
  }

  /** No part of a rule holds the separator. */
  lemma RulePartsNoSeparator(r: Recur)
    requires r.freq in Frequencies
    ensures forall i :: 0 <= i < |RuleParts(r)| ==> ';' !in RuleParts(r)[i]
  {
    var f := "FREQ=" + r.freq;
    FreqNoSeparator(r.freq);
    match (r.interval, r.until)
    case (Some(n), Some(d)) =>
      var i, u := "INTERVAL=" + NatToString(n), "UNTIL=" + FormatBasicDate(d);
      IntervalNoSeparator(n);
      UntilNoSeparator(d);
      assert RuleParts(r) == [f, i, u];
    case (Some(n), None) =>
      IntervalNoSeparator(n);
      assert RuleParts(r) == [f, "INTERVAL=" + NatToString(n)];
    case (None, Some(d)) =>
      UntilNoSeparator(d);
      assert RuleParts(r) == [f, "UNTIL=" + FormatBasicDate(d)];
    case (None, None) =>
      assert RuleParts(r) == [f];
  }

  lemma IntervalNoSeparator(n: nat)
    ensures ';' !in "INTERVAL=" + NatToString(n)
  {
    assert "INTERVAL="[8] == '=';
    KeyValueNoSeparator("INTERVAL=", NatToString(n));
  }

  lemma UntilNoSeparator(d: CalendarDay)
    ensures ';' !in "UNTIL=" + FormatBasicDate(d)
  {
    assert "UNTIL="[5] == '=';
    KeyValueNoSeparator("UNTIL=", FormatBasicDate(d));
  }

  /** A `KEY=` text followed by digits holds no `;`. */
  lemma KeyValueNoSeparator(key: string, digits: string)
    requires forall i :: 0 <= i < |key| ==> 'A' <= key[i] <= 'Z' || key[i] == '='
    requires AllDigits(digits)
    ensures ';' !in key + digits
  {
    var s := key + digits;
    forall i | 0 <= i < |s|
      ensures s[i] != ';'
    {
      if i >= |key| {
        assert s[i] == digits[i - |key|];
      }
    }
  }

  /** The `FREQ` part of a rule holds no `;`. */
  lemma FreqNoSeparator(freq: string)
    requires freq in Frequencies
    ensures ';' !in "FREQ=" + freq
  {
    var s := "FREQ=" + freq;
    assert forall i :: 0 <= i < |freq| ==> 'A' <= freq[i] <= 'Z';
    forall i | 0 <= i < |s|
      ensures s[i] != ';'
    {
      if i >= 5 {
        assert s[i] == freq[i - 5];
      }
    }
  }

  lemma DecodePartsOfRule(r: Recur)
    ensures DecodeParts(RuleParts(r)) == Some(r)
  {
    var parts := RuleParts(r);
    var freqPart := "FREQ=" + r.freq;
    assert parts[0] == freqPart && freqPart[..5] == "FREQ=" && freqPart[5..] == r.freq;
    var afterFreq := parts[1..];
    var untilParts := if r.until.Some? then ["UNTIL=" + FormatBasicDate(r.until.value)] else [];
    if r.interval.Some? {
      var p := "INTERVAL=" + NatToString(r.interval.value);
      assert afterFreq == [p] + untilParts;
      assert p[..9] == "INTERVAL=" && p[9..] == NatToString(r.interval.value);
      NatToStringValue(r.interval.value);
      assert TakeInterval(afterFreq) == (r.interval, untilParts);
    } else {
      assert afterFreq == untilParts;
      if r.until.Some? {
        assert untilParts[0][0] != "INTERVAL="[0];
      }
      assert TakeInterval(afterFreq) == (None, untilParts);
    }
    if r.until.Some? {
      var p := untilParts[0];
      assert p[..6] == "UNTIL=" && p[6..] == FormatBasicDate(r.until.value);
      FormatBasicDateDecodes(r.until.value);
      assert TakeUntil(untilParts) == (r.until, []);
    }
  }

  /** Reading back the rule built for a task gives the fields it encodes; no rule reads as nothing. */
  lemma RecurrenceRuleRoundTrip(t: Task, parseEnd: string -> Option<CalendarDay>)
    ensures DecodeRule(RecurrenceRule(t, parseEnd)) == RecurOf(t, parseEnd)
  {
    match RecurOf(t, parseEnd)
    case None =>
    case Some(r) =>
      var body := Join(RuleParts(r), ';');
      var rule := "RRULE:" + body;
      assert rule[..6] == "RRULE:" && rule[6..] == body;
      RulePartsNoSeparator(r);
      JoinSplit(RuleParts(r), ';');
      DecodePartsOfRule(r);
  }

  /** The rule of a recurring task with a known pattern starts with its frequency, upper-cased. */
  lemma RecurrenceRuleStart(t: Task, parseEnd: string -> Option<CalendarDay>)
    requires RecurOf(t, parseEnd).Some?
    ensures HasPrefix(RecurrenceRule(t, parseEnd), "RRULE:FREQ=" + Upper(t.recurrencePattern.value))
  {
    var r := RecurOf(t, parseEnd).value;
    RuleTextFlat(r);
    var head := "RRULE:" + ("FREQ=" + r.freq);
    assert head == "RRULE:FREQ=" + r.freq by {
      assert "RRULE:" + "FREQ=" == "RRULE:FREQ=";
    }
    PrefixOfAppend(head, IntervalText(r.interval), UntilText(r.until));
  }

  lemma PrefixOfAppend(a: string, b: string, c: string)
    ensures HasPrefix(a + b + c, a)
  {
    assert (a + b + c)[..|a|] == a;
  }

  // ---------------------------------------------------------------------------
  // Reading a date in one of several layouts
  // ---------------------------------------------------------------------------

  datatype LocalDate = LocalDate(year: int, month: int, day: int)

  predicate IsLeapYear(y: int)
  {
    y % 4 == 0 && (y % 100 != 0 || y % 400 == 0)
  }

  function DaysInMonth(y: int, m: int): int
    requires 1 <= m <= 12
  {
    if m == 2 then (if IsLeapYear(y) then 29 else 28)
    else if m == 4 || m == 6 || m == 9 || m == 11 then 30
    else 31
  }

  /** The arguments `LocalDate.of` accepts; any others make it throw. */
  predicate ValidDate(y: int, m: int, d: int)
  {
    -999_999_999 <= y <= 999_999_999 && 1 <= m <= 12 && 1 <= d <= DaysInMonth(y, m)
  }

  /**
   * The month and day read from the first two numbers of `a-b-yyyy`: a
   * first number too big for a month is the day, a second one too big is
   * the day, and when both could be months the first is the day. Both too
   * big gives nothing.
   */
  function Disambiguate(first: int, second: int): (md: Option<(int, int)>)
    ensures first > 12 && second <= 12 ==> md == Some((second, first))
    ensures second > 12 && first <= 12 ==> md == Some((first, second))
    ensures first <= 12 && second <= 12 ==> md == Some((second, first))
    ensures md.None? <==> first > 12 && second > 12
  {
    if first > 12 && second <= 12 then Some((second, first))
    else if second > 12 && first <= 12 then Some((first, second))
    else if first <= 12 && second <= 12 then Some((second, first))
    else None
  }

  /**
   * The date the `a-b-yyyy` rule reads, when it applies and `LocalDate.of`
   * accepts it: only text of three integer parts, with `/` read as `-` and
   * a four-character last part, gives a date, and its year is that part.
   */
  function ByParts(dateStr: string): (r: Option<LocalDate>)
    ensures r.Some? ==>
              var parts := Split(ReplaceChar(dateStr, '/', '-'), '-');
              |parts| == 3 && |parts[2]| == 4 && ToIntOrNull(parts[0]).Some? && ToIntOrNull(parts[1]).Some? &&
              ToIntOrNull(parts[2]) == Some(r.value.year)
    ensures r.Some? ==> ValidDate(r.value.year, r.value.month, r.value.day)
  {
    var parts := Split(ReplaceChar(dateStr, '/', '-'), '-');
    if |parts| != 3 || |parts[2]| != 4 then None
    else match (ToIntOrNull(parts[0]), ToIntOrNull(parts[1]), ToIntOrNull(parts[2]))
      case (Some(first), Some(second), Some(year)) => ByNumbers(first, second, year)
      case _ => None
  }

  /**
   * The date read from the three numbers of `a-b-yyyy`, when `LocalDate.of`
   * accepts it: a valid date of that year whose month and day are the two
   * first numbers in some order; none when both are too big for a month;
   * the first number as the day when both could be months.
   */
  function ByNumbers(first: int, second: int, year: int): (r: Option<LocalDate>)
    ensures r.Some? ==> ValidDate(r.value.year, r.value.month, r.value.day) && r.value.year == year &&
                        multiset{r.value.month, r.value.day} == multiset{first, second}
    ensures first > 12 && second > 12 ==> r.None?
    ensures first <= 12 && second <= 12 ==> r == (if ValidDate(year, second, first) then Some(LocalDate(year, second, first)) else None)
  {
    match Disambiguate(first, second)
    case Some((month, day)) => if ValidDate(year, month, day) then Some(LocalDate(year, month, day)) else None
    case None => None
  }

  /** The formatter patterns tried after the rule, in order. */
  const FallbackFormats := ["dd-MM-yyyy", "MM-dd-yyyy", "yyyy-MM-dd", "dd/MM/yyyy", "MM/dd/yyyy", "yyyy/MM/dd"]

  /**
   * `parseMultiFormatDate`. `parseWith(pattern, text)` is
   * `LocalDate.parse(text, ofPattern(pattern))`, `None` where it throws;
   * `today` is `LocalDate.now()`.
   */
  function MultiFormatDate(dateStr: string, parseWith: (string, string) -> Option<LocalDate>, today: LocalDate): (d: LocalDate)
    ensures parseWith("yyyy-MM-dd", dateStr).Some? ==> d == parseWith("yyyy-MM-dd", dateStr).value
    ensures parseWith("yyyy-MM-dd", dateStr).None? && ByParts(dateStr).Some? ==> d == ByParts(dateStr).value
  {
    if parseWith("yyyy-MM-dd", dateStr).Some? then parseWith("yyyy-MM-dd", dateStr).value
    else if ByParts(dateStr).Some? then ByParts(dateStr).value
    else FirstParse(FallbackFormats, dateStr, parseWith).GetOr(today)
  }

  /** The same reading, with early returns and the loop over the formatters. */
  method ParseMultiFormatDate(dateStr: string, parseWith: (string, string) -> Option<LocalDate>, today: LocalDate)
    returns (d: LocalDate)
    ensures d == MultiFormatDate(dateStr, parseWith, today)
  {
    var iso := parseWith("yyyy-MM-dd", dateStr);
    if iso.Some? {
      return iso.value;
    }
    var parts := Split(ReplaceChar(dateStr, '/', '-'), '-');
    if |parts| == 3 && |parts[2]| == 4 {
      var first, second, year := ToIntOrNull(parts[0]), ToIntOrNull(parts[1]), ToIntOrNull(parts[2]);
      if first.Some? && second.Some? && year.Some? {
        assert ByParts(dateStr) == ByNumbers(first.value, second.value, year.value);
        var md := Disambiguate(first.value, second.value);
        if md.Some? && ValidDate(year.value, md.value.0, md.value.1) {
          return LocalDate(year.value, md.value.0, md.value.1);
        }
      }
    }
    assert ByParts(dateStr).None?;
    var formats := FallbackFormats;
    var i := 0;
    while i < |formats|
      invariant 0 <= i <= |formats|
      invariant FirstParse(FallbackFormats, dateStr, parseWith) == FirstParse(formats[i..], dateStr, parseWith)
    {
      assert formats[i..][1..] == formats[i + 1..];
      var parsed := parseWith(formats[i], dateStr);
      if parsed.Some? {
        return parsed.value;
      }
      i := i + 1;
    }
    return today;
  }

  /** When neither the ISO layout, the rule nor any of the fallback layouts reads the text, the result is today. */
  lemma UnreadableIsToday(dateStr: string, parseWith: (string, string) -> Option<LocalDate>, today: LocalDate)
    requires parseWith("yyyy-MM-dd", dateStr).None?
    requires ByParts(dateStr).None?
    requires forall p :: p in FallbackFormats ==> parseWith(p, dateStr).None?
    ensures MultiFormatDate(dateStr, parseWith, today) == today
  {
  }

  /** The result is a real date whenever the library only ever gives real dates. */
  lemma MultiFormatDateValid(dateStr: string, parseWith: (string, string) -> Option<LocalDate>, today: LocalDate)
    requires forall p, s :: parseWith(p, s).Some? ==> ValidDate(parseWith(p, s).value.year, parseWith(p, s).value.month, parseWith(p, s).value.day)
    requires ValidDate(today.year, today.month, today.day)
    ensures var d := MultiFormatDate(dateStr, parseWith, today); ValidDate(d.year, d.month, d.day)
  {
    var r := FirstParse(FallbackFormats, dateStr, parseWith);
    if r.Some? {
      var i :| 0 <= i < |FallbackFormats| && parseWith(FallbackFormats[i], dateStr) == r;
    }
  }

  /** The rule's three cases on the parts of `a-b-yyyy`. */
  lemma ByPartsCases(dateStr: string, first: int, second: int, year: int)
    requires var parts := Split(ReplaceChar(dateStr, '/', '-'), '-');
             |parts| == 3 && |parts[2]| == 4 &&
             ToIntOrNull(parts[0]) == Some(first) && ToIntOrNull(parts[1]) == Some(second) && ToIntOrNull(parts[2]) == Some(year)
    ensures first > 12 && second <= 12 && ValidDate(year, second, first) ==> ByParts(dateStr) == Some(LocalDate(year, second, first))
    ensures second > 12 && first <= 12 && ValidDate(year, first, second) ==> ByParts(dateStr) == Some(LocalDate(year, first, second))
    ensures first <= 12 && second <= 12 && ValidDate(year, second, first) ==> ByParts(dateStr) == Some(LocalDate(year, second, first))
    ensures first > 12 && second > 12 ==> ByParts(dateStr).None?
  {
    assert ByParts(dateStr) == ByNumbers(first, second, year);
  }
}
