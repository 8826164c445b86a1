/**
 * The ordering of one day's calendar items: Google events by start time,
 * then tasks by deadline time, with tasks that share a deadline time
 * grouped and the first of each shared group annotated with a conflict
 * note. `sortedBy` is a stable sort and `groupBy` keeps the keys in the
 * order they first appear and each group's members in input order.
 */
module CalendarViewModelModel {
  import opened Wrappers
  import opened Text
  import opened TaskModel
  import opened CalendarRepositoryModel

  // ---------------------------------------------------------------------------
  // Stable sort by a key
  // ---------------------------------------------------------------------------

  /** `le` is total and transitive, as `compareTo(a, b) <= 0` is. */
  ghost predicate TotalPreorder<K(!new)>(le: (K, K) -> bool)
  {
    && (forall a, b :: le(a, b) || le(b, a))
    && (forall a, b, c :: le(a, b) && le(b, c) ==> le(a, c))
  }

  ghost predicate SortedBy<T, K>(s: seq<T>, key: T -> K, le: (K, K) -> bool)
  {
    forall i, j :: 0 <= i < j < |s| ==> le(key(s[i]), key(s[j]))
  }

  /** Puts `x` before the first element whose key is not below its own. */
  function Insert<T, K>(x: T, s: seq<T>, key: T -> K, le: (K, K) -> bool): (r: seq<T>)
    ensures |r| == |s| + 1
  {
    if |s| == 0 then [x]
    else if le(key(x), key(s[0])) then [x] + s
    else [s[0]] + Insert(x, s[1..], key, le)
  }

  /** Inserting adds `x` once and keeps every other element. */
  lemma {:induction false} InsertElements<T, K>(x: T, s: seq<T>, key: T -> K, le: (K, K) -> bool)
    ensures multiset(Insert(x, s, key, le)) == multiset(s) + multiset{x}
  {
    if |s| > 0 && !le(key(x), key(s[0])) {
      InsertElements(x, s[1..], key, le);
      assert s == [s[0]] + s[1..];
    }
  }

  /** `sortedBy(key)`: insertion sort, so elements with equal keys keep their order; the result is a permutation. */
  function SortBy<T, K>(s: seq<T>, key: T -> K, le: (K, K) -> bool): (r: seq<T>)
    ensures |r| == |s|
    ensures multiset(r) == multiset(s)
  {
    if |s| == 0 then []
    else
      var rest := SortBy(s[1..], key, le);
      InsertElements(s[0], rest, key, le);
      assert s == [s[0]] + s[1..];
      Insert(s[0], rest, key, le)
  }

  lemma {:induction false} InsertSorted<T, K(!new)>(x: T, s: seq<T>, key: T -> K, le: (K, K) -> bool)
    requires TotalPreorder(le)
    requires SortedBy(s, key, le)
    ensures SortedBy(Insert(x, s, key, le), key, le)
  {
    if |s| > 0 && !le(key(x), key(s[0])) {
      var rest := Insert(x, s[1..], key, le);
      InsertSorted(x, s[1..], key, le);
      InsertElements(x, s[1..], key, le);
      forall y | y in rest
        ensures le(key(s[0]), key(y))
      {
        assert y in multiset(rest);
        if y != x {
          assert y in multiset(s[1..]);
          var j :| 0 <= j < |s[1..]| && s[1..][j] == y;
          assert s[j + 1] == y;
        }
      }
      var r := [s[0]] + rest;
      forall i, j | 0 <= i < j < |r|
        ensures le(key(r[i]), key(r[j]))
      {
        if i == 0 {
          assert r[j] == rest[j - 1] && rest[j - 1] in rest;
        } else {
          assert r[i] == rest[i - 1] && r[j] == rest[j - 1];
        }
      }
    }
  }

  /** The sort orders by the key. */
  lemma {:induction false} SortBySorted<T, K(!new)>(s: seq<T>, key: T -> K, le: (K, K) -> bool)
    requires TotalPreorder(le)
    ensures SortedBy(SortBy(s, key, le), key, le)
  {
    if |s| > 0 {
      SortBySorted(s[1..], key, le);
      InsertSorted(s[0], SortBy(s[1..], key, le), key, le);
    }
  }

  /** The elements of `s` whose key is `k`, in order. */
  function KeyFilter<T, K(==)>(s: seq<T>, key: T -> K, k: K): (r: seq<T>)
    ensures |r| <= |s|
    ensures forall i :: 0 <= i < |r| ==> key(r[i]) == k
  {
    if |s| == 0 then []
    else (if key(s[0]) == k then [s[0]] else []) + KeyFilter(s[1..], key, k)
  }

  lemma {:induction false} KeyFilterInsert<T, K>(x: T, s: seq<T>, key: T -> K, le: (K, K) -> bool, k: K)
    requires le(k, k)
    ensures KeyFilter(Insert(x, s, key, le), key, k) ==
              (if key(x) == k then [x] else []) + KeyFilter(s, key, k)
  {
    if |s| > 0 && !le(key(x), key(s[0])) {
      KeyFilterInsert(x, s[1..], key, le, k);
      assert key(x) == k ==> key(s[0]) != k;
      assert Insert(x, s, key, le)[1..] == Insert(x, s[1..], key, le);
    } else if |s| > 0 {
      assert ([x] + s)[1..] == s;
    }
  }

  /** The sort is stable: the elements with any one key keep their relative order. */
  lemma {:induction false} SortByStable<T, K>(s: seq<T>, key: T -> K, le: (K, K) -> bool, k: K)
    requires le(k, k)
    ensures KeyFilter(SortBy(s, key, le), key, k) == KeyFilter(s, key, k)
  {
    if |s| > 0 {
      SortByStable(s[1..], key, le, k);
      KeyFilterInsert(s[0], SortBy(s[1..], key, le), key, le, k);
    }
  }

  lemma {:induction false} KeyFilterSnoc<T, K>(s: seq<T>, x: T, key: T -> K, k: K)
    ensures KeyFilter(s + [x], key, k) == KeyFilter(s, key, k) + (if key(x) == k then [x] else [])
  {
    if |s| > 0 {
      assert (s + [x])[1..] == s[1..] + [x];
      KeyFilterSnoc(s[1..], x, key, k);
    }
  }

  lemma {:induction false} KeyFilterEmpty<T, K>(s: seq<T>, key: T -> K, k: K)
    ensures KeyFilter(s, key, k) == [] <==> forall i :: 0 <= i < |s| ==> key(s[i]) != k
  {
    if |s| > 0 {
      KeyFilterEmpty(s[1..], key, k);
      assert forall i :: 1 <= i < |s| ==> s[i] == s[1..][i - 1];
    }
  }

  /** `<=` on `Long` keys. */
  predicate IntLe(a: int, b: int) { a <= b }

  lemma IntLeTotalPreorder()
    ensures TotalPreorder(IntLe)
  {
  }

  /** `String.compareTo(other) <= 0`. */
  predicate TextLe(a: string, b: string) { StringLe(a, b) }

  lemma TextLeTotalPreorder()
    ensures TotalPreorder(TextLe)
  {
    forall a: string, b: string
      ensures TextLe(a, b) || TextLe(b, a)
    {
      StringLeTotal(a, b);
    }
    forall a: string, b: string, c: string | TextLe(a, b) && TextLe(b, c)
      ensures TextLe(a, c)
    {
      StringLeTransitive(a, b, c);
    }
  }

  // ---------------------------------------------------------------------------
  // The keys
  // ---------------------------------------------------------------------------

  /** An event's start time as a `Long`; one that does not parse sorts last. */
  function EventKey(e: CalendarEvent): (k: int)
    ensures ToLongOrNull(e.startTime).None? ==> k == Int64Max
    ensures ToLongOrNull(e.startTime).Some? ==> k == ToLongOrNull(e.startTime).value
    ensures Int64Min <= k <= Int64Max
  {
    ToLongOrNull(e.startTime).GetOr(Int64Max)
  }

  /** A task sorts by its deadline time, one without sorting as `23:59`. */
  function TaskSortKey(t: Task): string
  {
    t.deadlineTime.GetOr("23:59")
  }

  /** A task is grouped by its deadline time, those without under `No time`. */
  function GroupKey(t: Task): string
  {
    t.deadlineTime.GetOr("No time")
  }

  // ---------------------------------------------------------------------------
  // groupBy
  // ---------------------------------------------------------------------------

  datatype Group = Group(key: string, members: seq<Task>)

  /** The index of the group with key `k`, if any. */
  function IndexOfKey(gs: seq<Group>, k: string): (r: Option<nat>)
    ensures r.Some? ==> r.value < |gs| && gs[r.value].key == k
    ensures r.None? <==> forall i :: 0 <= i < |gs| ==> gs[i].key != k
  {
    if |gs| == 0 then None
    else if gs[0].key == k then Some(0)
    else
      match IndexOfKey(gs[1..], k)
      case None =>
        assert forall i :: 1 <= i < |gs| ==> gs[i] == gs[1..][i - 1];
        None
      case Some(i) => Some(i + 1)
  }

  /** `getOrPut(key) { mutableListOf() }.add(t)` on a map that keeps insertion order. */
  function AddToGroups(gs: seq<Group>, t: Task): seq<Group>
  {
    match IndexOfKey(gs, GroupKey(t))
    case Some(i) => gs[i := Group(gs[i].key, gs[i].members + [t])]
    case None => gs + [Group(GroupKey(t), [t])]
  }

  /**
   * `groupBy(GroupKey)`: one group per key present, keys distinct and in
   * the order they first occur, each group holding exactly the tasks with
   * its key in input order; the groups
   * one after the other hold the input's tasks, none added or lost.
   */
  function GroupBy(s: seq<Task>): (r: seq<Group>)
    ensures GroupsOf(r, s)
    ensures multiset(Flatten(r)) == multiset(s)
  {
    if |s| == 0 then []
    else
      var gs := GroupBy(s[..|s| - 1]);
      AddToGroupsGroups(gs, s[..|s| - 1], s[|s| - 1], s);
      GroupByFlattenStep(gs, s);
      AddToGroups(gs, s[|s| - 1])
  }

  /** Adding the last task to groups that hold the others gives groups that hold all of them. */
  lemma GroupByFlattenStep(gs: seq<Group>, s: seq<Task>)
    requires |s| > 0 && multiset(Flatten(gs)) == multiset(s[..|s| - 1])
    ensures multiset(Flatten(AddToGroups(gs, s[|s| - 1]))) == multiset(s)
  {
    var init, t := s[..|s| - 1], s[|s| - 1];
    assert s == init + [t];
    assert multiset(s) == multiset(init) + multiset{t};
    AddToGroupsFlatten(gs, t);
  }

  ghost predicate DistinctKeys(gs: seq<Group>)
  {
    forall i, j :: 0 <= i < j < |gs| ==> gs[i].key != gs[j].key
  }

  /** Each group holds the elements of `s` with its key, in order, and is not empty. */
  ghost predicate MembersOf(gs: seq<Group>, s: seq<Task>)
  {
    forall i :: 0 <= i < |gs| ==> gs[i].members == KeyFilter(s, GroupKey, gs[i].key) && |gs[i].members| > 0
  }

  /** Every element of `s` has a group. */
  ghost predicate Covers(gs: seq<Group>, s: seq<Task>)
  {
    forall j :: 0 <= j < |s| ==> IndexOfKey(gs, GroupKey(s[j])).Some?
  }

  /** The position of the first task of `s` with key `k`, or `|s|` when there is none. */
  function FirstIndex(s: seq<Task>, k: string): (r: nat)
    ensures r <= |s|
    ensures r < |s| ==> GroupKey(s[r]) == k
    ensures forall p :: 0 <= p < r ==> GroupKey(s[p]) != k
  {
    if |s| == 0 then 0
    else if GroupKey(s[0]) == k then 0
    else
      var r := 1 + FirstIndex(s[1..], k);
      assert forall p :: 1 <= p < |s| ==> s[p] == s[1..][p - 1];
      r
  }

  /** The groups come in the order their keys first occur in `s`, as in a `LinkedHashMap`. */
  ghost predicate FirstSeenOrder(gs: seq<Group>, s: seq<Task>)
  {
    && (forall i :: 0 <= i < |gs| ==> FirstIndex(s, gs[i].key) < |s|)
    && (forall i, j :: 0 <= i < j < |gs| ==> FirstIndex(s, gs[i].key) < FirstIndex(s, gs[j].key))
  }

  /** `gs` is the grouping of `s`. */
  ghost predicate GroupsOf(gs: seq<Group>, s: seq<Task>)
  {
    DistinctKeys(gs) && MembersOf(gs, s) && Covers(gs, s) && FirstSeenOrder(gs, s)
  }

  /** Appending a task leaves the first position of a key already present where it was. */
  lemma FirstIndexSnoc(s: seq<Task>, t: Task, k: string)
    ensures FirstIndex(s, k) < |s| ==> FirstIndex(s + [t], k) == FirstIndex(s, k)
    ensures FirstIndex(s, k) == |s| && GroupKey(t) == k ==> FirstIndex(s + [t], k) == |s|
  {
    var f, g := FirstIndex(s, k), FirstIndex(s + [t], k);
    assert forall p :: 0 <= p < |s| ==> (s + [t])[p] == s[p];
    if f < |s| {
      assert (s + [t])[f] == s[f];
    } else if GroupKey(t) == k {
      assert (s + [t])[|s|] == t;
    }
  }

  /** Adding a task keeps the groups in first-seen order: an existing key keeps its place, a new one comes last. */
  lemma AddToGroupsOrder(gs: seq<Group>, s: seq<Task>, t: Task)
    requires Covers(gs, s) && FirstSeenOrder(gs, s)
    ensures FirstSeenOrder(AddToGroups(gs, t), s + [t])
  {
    var kt, r := GroupKey(t), AddToGroups(gs, t);
    AddToGroupsKeys(gs, t);
    forall i | 0 <= i < |gs|
      ensures FirstIndex(s + [t], r[i].key) == FirstIndex(s, gs[i].key)
    {
      FirstIndexSnoc(s, t, gs[i].key);
    }
    if IndexOfKey(gs, kt).None? {
      FirstIndexSnoc(s, t, kt);
      assert r[|gs|].key == kt;
    }
  }

  /** Adding keeps every existing group's key at its place, and the new task's key then has a group. */
  lemma AddToGroupsKeys(gs: seq<Group>, t: Task)
    ensures |AddToGroups(gs, t)| >= |gs|
    ensures forall i :: 0 <= i < |gs| ==> AddToGroups(gs, t)[i].key == gs[i].key
    ensures IndexOfKey(AddToGroups(gs, t), GroupKey(t)).Some?
  {
    var r := AddToGroups(gs, t);
    match IndexOfKey(gs, GroupKey(t))
    case Some(i) =>
      assert r[i].key == GroupKey(t);
    case None =>
      assert r[|gs|].key == GroupKey(t);
  }

  lemma AddToGroupsDistinct(gs: seq<Group>, t: Task)
    requires DistinctKeys(gs)
    ensures DistinctKeys(AddToGroups(gs, t))
  {
  }

  lemma AddToGroupsCovers(gs: seq<Group>, s: seq<Task>, t: Task)
    requires Covers(gs, s)
    ensures Covers(AddToGroups(gs, t), s + [t])
  {
    var r := AddToGroups(gs, t);
    AddToGroupsKeys(gs, t);
    forall j | 0 <= j < |s| + 1
      ensures IndexOfKey(r, GroupKey((s + [t])[j])).Some?
    {
      if j < |s| {
        var k := GroupKey(s[j]);
        assert (s + [t])[j] == s[j];
        var g := IndexOfKey(gs, k).value;
        assert r[g].key == k;
      }
    }
  }

  lemma AddToGroupsMembers(gs: seq<Group>, s: seq<Task>, t: Task)
    requires DistinctKeys(gs) && MembersOf(gs, s) && Covers(gs, s)
    ensures MembersOf(AddToGroups(gs, t), s + [t])
  {
    var kt := GroupKey(t);
    var r := AddToGroups(gs, t);
    forall i | 0 <= i < |gs|
      ensures KeyFilter(s + [t], GroupKey, gs[i].key) == gs[i].members + (if gs[i].key == kt then [t] else [])
    {
      KeyFilterSnoc(s, t, GroupKey, gs[i].key);
    }
    match IndexOfKey(gs, kt)
    case Some(g) =>
      forall i | 0 <= i < |r|
        ensures r[i].members == KeyFilter(s + [t], GroupKey, r[i].key) && |r[i].members| > 0
      {
        if i != g {
          assert gs[i].key != kt;
        }
      }
    case None =>
      KeyFilterSnoc(s, t, GroupKey, kt);
      KeyFilterEmpty(s, GroupKey, kt);
      assert KeyFilter(s, GroupKey, kt) == [];
  }

  /** Adding one task `t` to the grouping of `s` gives the grouping of `s + [t]`. */
  lemma AddToGroupsGroups(gs: seq<Group>, s: seq<Task>, t: Task, s': seq<Task>)
    requires GroupsOf(gs, s)
    requires |s'| == |s| + 1 && s'[..|s|] == s && s'[|s|] == t
    ensures GroupsOf(AddToGroups(gs, t), s')
  {
    assert s' == s + [t];
    AddToGroupsDistinct(gs, t);
    AddToGroupsMembers(gs, s, t);
    AddToGroupsCovers(gs, s, t);
    AddToGroupsOrder(gs, s, t);
  }

  /** The groups' members one after the other. */
  function Flatten(gs: seq<Group>): seq<Task>
  {
    if |gs| == 0 then [] else gs[0].members + Flatten(gs[1..])
  }

  lemma {:induction false} FlattenSnoc(gs: seq<Group>, g: Group)
    ensures Flatten(gs + [g]) == Flatten(gs) + g.members
  {
    if |gs| > 0 {
      assert (gs + [g])[1..] == gs[1..] + [g];
      FlattenSnoc(gs[1..], g);
    }
  }

  /** The members of group `i` sit between those of the groups before and after it. */
  lemma {:induction false} FlattenSplit(gs: seq<Group>, i: nat)
    requires i < |gs|
    ensures Flatten(gs) == Flatten(gs[..i]) + gs[i].members + Flatten(gs[i + 1..])
  {
    if i > 0 {
      FlattenSplit(gs[1..], i - 1);
      assert gs[1..][..i - 1] == gs[..i][1..];
      assert gs[1..][i - 1 + 1..] == gs[i + 1..];
      assert gs[1..][i - 1] == gs[i];
    } else {
      assert gs[..0] == [];
    }
  }

  /** Adding a task to the groups adds it once to their members. */
  lemma AddToGroupsFlatten(gs: seq<Group>, t: Task)
    ensures multiset(Flatten(AddToGroups(gs, t))) == multiset(Flatten(gs)) + multiset{t}
  {
    match IndexOfKey(gs, GroupKey(t))
    case Some(i) =>
      var g := Group(gs[i].key, gs[i].members + [t]);
      var u := gs[i := g];
      FlattenSplit(gs, i);
      FlattenSplit(u, i);
      assert u[..i] == gs[..i] && u[i + 1..] == gs[i + 1..];
    case None =>
      FlattenSnoc(gs, Group(GroupKey(t), [t]));
  }

  // ---------------------------------------------------------------------------
  // Conflict notes
  // ---------------------------------------------------------------------------

  const ConflictPrefix := "\n\U{26A0}\U{FE0F} CONFLICT: "
  const ConflictSuffix := " other task(s) scheduled at the same time."

  /** The note appended for `others` further tasks at the same time; the count it names reads back. */
  function ConflictNote(others: int): (r: string)
    ensures |ConflictPrefix| + |ConflictSuffix| < |r|
    ensures r[..|ConflictPrefix|] == ConflictPrefix && r[|r| - |ConflictSuffix|..] == ConflictSuffix
    ensures Int32Min <= others <= Int32Max ==>
              ToIntOrNull(r[|ConflictPrefix|..|r| - |ConflictSuffix|]) == Some(others)
  {
    var n := IntToString(others);
    var r := ConflictPrefix + n + ConflictSuffix;
    assert r[|ConflictPrefix|..|r| - |ConflictSuffix|] == n;
    if Int32Min <= others <= Int32Max then ParseIntToString(others, Int32Min, Int32Max); r else r
  }

  /** A group of more than one task gets the note on its first task only. */
  function Annotate(members: seq<Task>): (r: seq<Task>)
    ensures |r| == |members|
    ensures |members| > 1 ==> r[0] == members[0].(description := Some(members[0].description.GetOr("") + ConflictNote(|members| - 1)))
    ensures |members| <= 1 ==> r == members
    ensures forall i :: 1 <= i < |members| ==> r[i] == members[i]
  {
    if |members| > 1 then
      var first := members[0];
      [first.(description := Some(first.description.GetOr("") + ConflictNote(|members| - 1)))] + members[1..]
    else members
  }

  /** `flatMap` of the annotated groups. */
  function FlattenAnnotated(gs: seq<Group>): (r: seq<Task>)
    ensures |r| == |Flatten(gs)|
  {
    if |gs| == 0 then [] else Annotate(gs[0].members) + FlattenAnnotated(gs[1..])
  }

  /** A note changes only the description of the task it is put on. */
  lemma AnnotateKeepsOtherFields(members: seq<Task>, i: nat)
    requires i < |members|
    ensures var t := Annotate(members)[i];
            t.(description := members[i].description) == members[i]
    ensures i == 0 && |members| > 1 ==> Annotate(members)[i].description.Some?
  {
  }

  // ---------------------------------------------------------------------------
  // sortAndHandleConflicts
  // ---------------------------------------------------------------------------

  function Events(items: seq<CalendarItem>): (r: seq<CalendarEvent>)
    ensures |r| == GoogleEventCount(items)
  {
    if |items| == 0 then []
    else (if items[0].GoogleEventItem? then [items[0].event] else []) + Events(items[1..])
  }

  function Tasks(items: seq<CalendarItem>): (r: seq<Task>)
    ensures |r| == |items| - GoogleEventCount(items)
  {
    if |items| == 0 then []
    else (if items[0].TaskItem? then [items[0].task] else []) + Tasks(items[1..])
  }

  function WrapEvents(es: seq<CalendarEvent>): (r: seq<CalendarItem>)
    ensures |r| == |es| && forall i :: 0 <= i < |es| ==> r[i] == GoogleEventItem(es[i])
  {
    if |es| == 0 then [] else [GoogleEventItem(es[0])] + WrapEvents(es[1..])
  }

  function WrapTasks(ts: seq<Task>): (r: seq<CalendarItem>)
    ensures |r| == |ts| && forall i :: 0 <= i < |ts| ==> r[i] == TaskItem(ts[i])
  {
    if |ts| == 0 then [] else [TaskItem(ts[0])] + WrapTasks(ts[1..])
  }

  function SortedEvents(items: seq<CalendarItem>): seq<CalendarEvent>
  {
    SortBy(Events(items), EventKey, IntLe)
  }

  function SortedTasks(items: seq<CalendarItem>): seq<Task>
  {
    SortBy(Tasks(items), TaskSortKey, TextLe)
  }

  /** The sorted tasks, grouped by time, with the conflict notes: as many as the input's tasks. */
  function HandledTasks(items: seq<CalendarItem>): (r: seq<Task>)
    ensures |r| == |Tasks(items)|
  {
    var ts := SortedTasks(items);
    GroupByLength(ts);
    FlattenAnnotated(GroupBy(ts))
  }

  /** Grouping neither adds nor drops tasks. */
  lemma GroupByLength(s: seq<Task>)
    ensures |Flatten(GroupBy(s))| == |s|
  {
    assert |multiset(Flatten(GroupBy(s)))| == |multiset(s)|;
  }

  /**
   * `sortAndHandleConflicts`: the sorted events, then the sorted tasks
   * grouped by time with a note on the first task of each conflict. The
   * result has as many items as the input, the events first and then the
   * tasks.
   */
  function SortAndHandleConflicts(items: seq<CalendarItem>): (r: seq<CalendarItem>)
    ensures |r| == |items|
    ensures forall i :: 0 <= i < |r| ==> (r[i].GoogleEventItem? <==> i < GoogleEventCount(items))
    ensures GoogleEventCount(r) == GoogleEventCount(items)
  {
    var es, ts := SortedEvents(items), HandledTasks(items);
    var r := WrapEvents(es) + WrapTasks(ts);
    WrapShape(es, ts);
    CountPrefix(r, |es|);
    r
  }

  /** Wrapped events followed by wrapped tasks: exactly the first `|es|` items are events. */
  lemma WrapShape(es: seq<CalendarEvent>, ts: seq<Task>)
    ensures var r := WrapEvents(es) + WrapTasks(ts);
            forall i :: 0 <= i < |r| ==> (r[i].GoogleEventItem? <==> i < |es|)
  {
    var r := WrapEvents(es) + WrapTasks(ts);
    forall i | 0 <= i < |r|
      ensures r[i].GoogleEventItem? <==> i < |es|
    {
      if i < |es| {
        assert r[i] == WrapEvents(es)[i];
      } else {
        assert r[i] == WrapTasks(ts)[i - |es|];
      }
    }
  }

  /** A list whose first `n` items are exactly its events has `n` events. */
  lemma {:induction false} CountPrefix(r: seq<CalendarItem>, n: nat)
    requires n <= |r|
    requires forall i :: 0 <= i < |r| ==> (r[i].GoogleEventItem? <==> i < n)
    ensures GoogleEventCount(r) == n
  {
    if |r| > 0 {
      if n > 0 {
        CountPrefix(r[1..], n - 1);
      } else {
        CountPrefix(r[1..], 0);
      }
    }
  }

  /** The events come out ordered by start time, stably, and none is lost or added. */
  lemma EventsOrdered(items: seq<CalendarItem>, k: int)
    ensures SortedBy(SortedEvents(items), EventKey, IntLe)
    ensures multiset(SortedEvents(items)) == multiset(Events(items))
    ensures KeyFilter(SortedEvents(items), EventKey, k) == KeyFilter(Events(items), EventKey, k)
  {
    IntLeTotalPreorder();
    SortBySorted(Events(items), EventKey, IntLe);
    SortByStable(Events(items), EventKey, IntLe, k);
  }

  /** The tasks are sorted by deadline time, stably, before grouping, and grouping places each once. */
  lemma TasksOrdered(items: seq<CalendarItem>, k: string)
    ensures SortedBy(SortedTasks(items), TaskSortKey, TextLe)
    ensures multiset(SortedTasks(items)) == multiset(Tasks(items))
    ensures KeyFilter(SortedTasks(items), TaskSortKey, k) == KeyFilter(Tasks(items), TaskSortKey, k)
    ensures GroupsOf(GroupBy(SortedTasks(items)), SortedTasks(items))
    ensures multiset(Flatten(GroupBy(SortedTasks(items)))) == multiset(Tasks(items))
  {
    TextLeTotalPreorder();
    SortBySorted(Tasks(items), TaskSortKey, TextLe);
    StringLeTotal(k, k);
    SortByStable(Tasks(items), TaskSortKey, TextLe, k);
  }
}
