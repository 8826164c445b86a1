/** The search filter over a list of tasks. */
module TaskExtensions {
  import opened Wrappers
  import opened Text
  import opened TaskModel

  /** The filter text occurs, ignoring case, in the title or in the description (a missing description reads as empty). */
  predicate Matches(t: Task, filter: string)
  {
    Contains(Lower(t.title), Lower(filter)) || Contains(Lower(t.description.GetOr("")), Lower(filter))
  }

  /** `List<Task>.filterBy(filter)`. */
  function FilterBy(tasks: seq<Task>, filter: string): (r: seq<Task>)
    ensures |r| <= |tasks|
    ensures forall i :: 0 <= i < |r| ==> Matches(r[i], filter)
  {
    if |tasks| == 0 then []
    else if Matches(tasks[0], filter) then [tasks[0]] + FilterBy(tasks[1..], filter)
    else FilterBy(tasks[1..], filter)
  }

  /** `a` is `b` with some elements removed, the rest in their order. */
  predicate IsSubsequence<T(==)>(a: seq<T>, b: seq<T>)
    decreases |b|
  {
    if |a| == 0 then true
    else if |b| == 0 then false
    else (a[0] == b[0] && IsSubsequence(a[1..], b[1..])) || IsSubsequence(a, b[1..])
  }

  /** The result keeps the order of the input. */
  lemma {:induction false} FilterBySubsequence(tasks: seq<Task>, filter: string)
    ensures IsSubsequence(FilterBy(tasks, filter), tasks)
  {
    if |tasks| > 0 {
      FilterBySubsequence(tasks[1..], filter);
      var r := FilterBy(tasks, filter);
      if Matches(tasks[0], filter) {
        assert r[0] == tasks[0] && r[1..] == FilterBy(tasks[1..], filter);
      } else {
        assert IsSubsequence(r, tasks[1..]);
      }
    }
  }

  /** A task is kept exactly as often as it occurs when it matches, and never when it does not. */
  lemma {:induction false} FilterByCount(tasks: seq<Task>, filter: string, t: Task)
    ensures multiset(FilterBy(tasks, filter))[t] == if Matches(t, filter) then multiset(tasks)[t] else 0
  {
    if |tasks| > 0 {
      FilterByCount(tasks[1..], filter, t);
      assert tasks == [tasks[0]] + tasks[1..];
    }
  }

  /** A task is in the result if and only if it is in the input and matches. */
  lemma FilterByMembership(tasks: seq<Task>, filter: string, t: Task)
    ensures t in FilterBy(tasks, filter) <==> t in tasks && Matches(t, filter)
  {
    FilterByCount(tasks, filter, t);
    assert t in FilterBy(tasks, filter) <==> multiset(FilterBy(tasks, filter))[t] > 0;
    assert t in tasks <==> multiset(tasks)[t] > 0;
  }

  /** The empty filter keeps every task. */
  lemma {:induction false} EmptyFilterKeepsAll(tasks: seq<Task>)
    ensures FilterBy(tasks, "") == tasks
  {
    if |tasks| > 0 {
      ContainsEmpty(Lower(tasks[0].title));
      assert Lower("") == "";
      EmptyFilterKeepsAll(tasks[1..]);
    }
  }

  /** A task whose title or description holds the filter is kept. */
  lemma MatchesWhenTitleHolds(t: Task, filter: string, before: string, after: string)
    requires t.title == before + filter + after
    ensures Matches(t, filter)
  {
    LowerAppend(before + filter, after);
    LowerAppend(before, filter);
    ContainsInAppend(Lower(before), Lower(filter), Lower(filter));
    assert OccursAt(Lower(filter), Lower(filter), 0);
    ContainsInAppend(Lower(before) + Lower(filter), Lower(after), Lower(filter));
  }

  /** Filtering twice with the same text is filtering once. */
  lemma {:induction false} FilterByIdempotent(tasks: seq<Task>, filter: string)
    ensures FilterBy(FilterBy(tasks, filter), filter) == FilterBy(tasks, filter)
  {
    if |tasks| > 0 {
      FilterByIdempotent(tasks[1..], filter);
    }
  }
}
