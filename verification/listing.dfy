/**
 * The `list` command of task-tracker.js: the optional stable sort by priority (chosen by the first
 * `--sort=` token) and the due-date label printed beside each task. The current date is the parameter
 * `today`; turning a stored `dueDate` string into a calendar date is the parameter `parse`, which gives
 * `None` where JavaScript builds an Invalid Date.
 */
module Listing {
  import opened Optional
  import opened Args
  import opened TaskModel

  /** A calendar date at local midnight. */
  datatype Date = Date(year: int, month: int, day: int)

  /** `a` is an earlier day than `b`: the `<` that `list` applies to two local midnights. */
  predicate Before(a: Date, b: Date) {
    a.year < b.year ||
    (a.year == b.year && (a.month < b.month || (a.month == b.month && a.day < b.day)))
  }

  /** `Before` is a strict total order on dates. */
  lemma BeforeStrictTotal(a: Date, b: Date, c: Date)
    ensures !Before(a, a)
    ensures Before(a, b) && Before(b, c) ==> Before(a, c)
    ensures Before(a, b) || a == b || Before(b, a)
    ensures !(Before(a, b) && Before(b, a))
  {
  }

  /** The label `list` prints for a task's due date. */
  datatype DueStatus = NoDueDate | Overdue | DueToday | Upcoming

  /** `if (task.dueDate)`: `null` and `""` are both falsy. */
  predicate HasDueDate(dueDate: Option<string>) {
    dueDate.Some? && dueDate.value != ""
  }

  /**
   * The label of one task: no due date; an unparseable date compares false both ways and so reads as
   * upcoming; otherwise earlier than today, today, or later than today.
   */
  function Classify(dueDate: Option<string>, today: Date, parse: string -> Option<Date>): (r: DueStatus)
    ensures r == NoDueDate <==> !HasDueDate(dueDate)
    ensures r == Overdue <==>
      HasDueDate(dueDate) && parse(dueDate.value).Some? && Before(parse(dueDate.value).value, today)
    ensures r == DueToday <==> HasDueDate(dueDate) && parse(dueDate.value) == Some(today)
    ensures r == Upcoming <==>
      HasDueDate(dueDate) && (parse(dueDate.value).None? || Before(today, parse(dueDate.value).value))
  {
    if !HasDueDate(dueDate) then NoDueDate
    else match parse(dueDate.value)
      case None => Upcoming
      case Some(due) =>
        if Before(due, today) then Overdue
        else if due == today then DueToday
        else Upcoming
  }

  /** `priorityOrder[p]`: high 1, medium 2, low 3, and `undefined` (None) for any other priority. */
  function PriorityOrder(priority: string): (r: Option<int>)
    ensures r.Some? ==> 1 <= r.value <= 3
  {
    if priority == "high" then Some(1)
    else if priority == "medium" then Some(2)
    else if priority == "low" then Some(3)
    else None
  }

  /** The sort key: `priorityOrder[p]`, with any other priority placed after low (rank 4). */
  function Rank(priority: string): (r: int)
    ensures 1 <= r <= 4
  {
    if priority == "high" then 1
    else if priority == "medium" then 2
    else if priority == "low" then 3
    else 4
  }

  /** The rank is the `priorityOrder` entry where there is one, and 4 exactly where there is none. */
  lemma RankOfPriorityOrder(priority: string)
    ensures PriorityOrder(priority).Some? ==> Rank(priority) == PriorityOrder(priority).value
    ensures PriorityOrder(priority).None? <==> Rank(priority) == 4
  {
  }

  /**
   * The comparator `list` passes to `sort`, as the sort sees it: when either priority is unknown the
   * difference is NaN, which JavaScript's sort treats as 0 ("equal").
   */
  function CompareAsWritten(a: string, b: string): int {
    match (PriorityOrder(a), PriorityOrder(b))
    case (Some(x), Some(y)) => x - y
    case _ => 0
  }

  /**
   * With a task whose priority is unknown, the comparator as written is not consistent: it calls the
   * unknown one equal to both "high" and "low" while "high" comes before "low", so the order `sort`
   * produces is left to the JavaScript engine.
   */
  lemma CompareAsWrittenInconsistent(unknown: string)
    requires PriorityOrder(unknown).None?
    ensures CompareAsWritten("high", unknown) == 0 && CompareAsWritten(unknown, "low") == 0
    ensures CompareAsWritten("high", "low") < 0
  {
  }

  /** The comparator on `Rank`, which the model sorts by. */
  function Compare(a: string, b: string): int {
    Rank(a) - Rank(b)
  }

  /** `Compare` is a consistent comparator: "equal" is an equivalence and "before" a strict order on it. */
  lemma CompareConsistent(a: string, b: string, c: string)
    ensures Compare(a, a) == 0
    ensures Compare(a, b) < 0 <==> Compare(b, a) > 0
    ensures Compare(a, b) == 0 && Compare(b, c) == 0 ==> Compare(a, c) == 0
    ensures Compare(a, b) < 0 && Compare(b, c) <= 0 ==> Compare(a, c) < 0
    ensures Compare(a, b) <= 0 && Compare(b, c) < 0 ==> Compare(a, c) < 0
    ensures PriorityOrder(a).Some? && PriorityOrder(b).Some? ==> Compare(a, b) == CompareAsWritten(a, b)
  {
    RankOfPriorityOrder(a);
    RankOfPriorityOrder(b);
  }

  /** The tasks of rank `k`, in stored order. */
  function OfRank(tasks: seq<Task>, k: int): (r: seq<Task>)
    ensures |r| <= |tasks|
  {
    if tasks == [] then []
    else
      var last := tasks[|tasks| - 1];
      OfRank(tasks[..|tasks| - 1], k) + (if Rank(last.priority) == k then [last] else [])
  }

  /** Every selected task has the selected rank. */
  lemma {:induction false} OfRankRanks(tasks: seq<Task>, k: int)
    ensures forall i :: 0 <= i < |OfRank(tasks, k)| ==> Rank(OfRank(tasks, k)[i].priority) == k
  {
    if tasks != [] {
      OfRankRanks(tasks[..|tasks| - 1], k);
    }
  }

  /** The tasks of ranks 1 to `n`, rank by rank, each rank in stored order. */
  function Buckets(tasks: seq<Task>, n: nat): seq<Task> {
    if n == 0 then [] else Buckets(tasks, n - 1) + OfRank(tasks, n)
  }

  /** What `tasks.sort` by priority rank yields: JavaScript's sort is stable. */
  function PrioritySorted(tasks: seq<Task>): seq<Task> {
    Buckets(tasks, 4)
  }

  lemma {:induction false} OfRankAppend(a: seq<Task>, b: seq<Task>, k: int)
    ensures OfRank(a + b, k) == OfRank(a, k) + OfRank(b, k)
    decreases |b|
  {
    if b == [] {
      assert a + b == a;
    } else {
      var b' := b[..|b| - 1];
      assert (a + b)[..|a + b| - 1] == a + b';
      OfRankAppend(a, b', k);
    }
  }

  lemma {:induction false} OfRankCount(tasks: seq<Task>, k: int, t: Task)
    ensures multiset(OfRank(tasks, k))[t] == if Rank(t.priority) == k then multiset(tasks)[t] else 0
  {
    if tasks != [] {
      var init := tasks[..|tasks| - 1];
      assert tasks == init + [tasks[|tasks| - 1]];
      OfRankCount(init, k, t);
    }
  }

  lemma {:induction false} BucketsCount(tasks: seq<Task>, n: nat, t: Task)
    ensures multiset(Buckets(tasks, n))[t] == if Rank(t.priority) <= n then multiset(tasks)[t] else 0
  {
    if n > 0 {
      BucketsCount(tasks, n - 1, t);
      OfRankCount(tasks, n, t);
    }
  }

  /** The priority sort is a permutation of the stored collection. */
  lemma PrioritySortedPermutation(tasks: seq<Task>)
    ensures multiset(PrioritySorted(tasks)) == multiset(tasks)
    ensures |PrioritySorted(tasks)| == |tasks|
  {
    forall t ensures multiset(PrioritySorted(tasks))[t] == multiset(tasks)[t] {
      BucketsCount(tasks, 4, t);
    }
    assert multiset(PrioritySorted(tasks)) == multiset(tasks);
    assert |multiset(PrioritySorted(tasks))| == |multiset(tasks)|;
  }

  lemma {:induction false} BucketsRanks(tasks: seq<Task>, n: nat)
    ensures forall i :: 0 <= i < |Buckets(tasks, n)| ==> Rank(Buckets(tasks, n)[i].priority) <= n
    ensures forall i, j :: 0 <= i < j < |Buckets(tasks, n)| ==>
      Rank(Buckets(tasks, n)[i].priority) <= Rank(Buckets(tasks, n)[j].priority)
  {
    if n > 0 {
      BucketsRanks(tasks, n - 1);
      OfRankRanks(tasks, n);
      var b: seq<Task>, o: seq<Task> := Buckets(tasks, n - 1), OfRank(tasks, n);
      assert Buckets(tasks, n) == b + o;
      forall i | 0 <= i < |b + o| ensures Rank((b + o)[i].priority) <= n {
        if i >= |b| { assert (b + o)[i] == o[i - |b|]; }
      }
    }
  }

  /** The priority sort puts high before medium before low (before any other priority). */
  lemma PrioritySortedOrdered(tasks: seq<Task>)
    ensures forall i, j :: 0 <= i < j < |PrioritySorted(tasks)| ==>
      Rank(PrioritySorted(tasks)[i].priority) <= Rank(PrioritySorted(tasks)[j].priority)
  {
    BucketsRanks(tasks, 4);
  }

  /** Selecting rank `k` from the tasks of rank `n` keeps them all when `k == n`, and none otherwise. */
  lemma {:induction false} OfRankOfRank(tasks: seq<Task>, n: int, k: int)
    ensures OfRank(OfRank(tasks, n), k) == if k == n then OfRank(tasks, k) else []
  {
    if tasks != [] {
      var init, last := tasks[..|tasks| - 1], tasks[|tasks| - 1];
      var tail: seq<Task> := if Rank(last.priority) == n then [last] else [];
      assert OfRank(tasks, n) == OfRank(init, n) + tail;
      OfRankAppend(OfRank(init, n), tail, k);
      OfRankOfRank(init, n, k);
      if tail != [] {
        assert tail[..0] == [];
      }
    }
  }

  /** When no task has rank `k`, selecting rank `k` keeps none. */
  lemma {:induction false} OfRankNone(tasks: seq<Task>, k: int)
    requires forall i :: 0 <= i < |tasks| ==> Rank(tasks[i].priority) != k
    ensures OfRank(tasks, k) == []
  {
    if tasks != [] {
      OfRankNone(tasks[..|tasks| - 1], k);
    }
  }

  /** The priority sort is stable: tasks of equal priority keep their stored order. */
  lemma PrioritySortedStable(tasks: seq<Task>, k: int)
    ensures OfRank(PrioritySorted(tasks), k) == OfRank(tasks, k)
  {
    var o1, o2, o3, o4 := OfRank(tasks, 1), OfRank(tasks, 2), OfRank(tasks, 3), OfRank(tasks, 4);
    PrioritySortedRanks(tasks);
    OfRankAppend4(o1, o2, o3, o4, k);
    OfRankOfRanks(tasks, k);
  }

  /** Selecting rank `k` from each of the four rank groups and concatenating gives the tasks of rank `k`. */
  lemma OfRankOfRanks(tasks: seq<Task>, k: int)
    ensures OfRank(OfRank(tasks, 1), k) + OfRank(OfRank(tasks, 2), k) + OfRank(OfRank(tasks, 3), k) +
      OfRank(OfRank(tasks, 4), k) == OfRank(tasks, k)
  {
    OfRankOfRank(tasks, 1, k);
    OfRankOfRank(tasks, 2, k);
    OfRankOfRank(tasks, 3, k);
    OfRankOfRank(tasks, 4, k);
    if !(1 <= k <= 4) {
      OfRankNone(tasks, k);
    }
    ConcatOne(OfRank(OfRank(tasks, 1), k), OfRank(OfRank(tasks, 2), k), OfRank(OfRank(tasks, 3), k),
      OfRank(OfRank(tasks, 4), k), k, OfRank(tasks, k));
  }

  /** Four parts of which at most the `k`-th is non-empty concatenate to that part. */
  lemma ConcatOne(a: seq<Task>, b: seq<Task>, c: seq<Task>, d: seq<Task>, k: int, x: seq<Task>)
    requires a == (if k == 1 then x else []) && b == (if k == 2 then x else [])
    requires c == (if k == 3 then x else []) && d == (if k == 4 then x else [])
    requires !(1 <= k <= 4) ==> x == []
    ensures a + b + c + d == x
  {
  }

  /** The priority sort lists the high tasks, then medium, then low, then any other. */
  lemma PrioritySortedRanks(tasks: seq<Task>)
    ensures PrioritySorted(tasks) == OfRank(tasks, 1) + OfRank(tasks, 2) + OfRank(tasks, 3) + OfRank(tasks, 4)
  {
    var o1, o2, o3, o4 := OfRank(tasks, 1), OfRank(tasks, 2), OfRank(tasks, 3), OfRank(tasks, 4);
    assert Buckets(tasks, 1) == o1 by {
      assert Buckets(tasks, 1) == Buckets(tasks, 0) + o1;
    }
    assert Buckets(tasks, 2) == o1 + o2;
    assert Buckets(tasks, 3) == o1 + o2 + o3;
  }

  lemma OfRankAppend4(a: seq<Task>, b: seq<Task>, c: seq<Task>, d: seq<Task>, k: int)
    ensures OfRank(a + b + c + d, k) == OfRank(a, k) + OfRank(b, k) + OfRank(c, k) + OfRank(d, k)
  {
    OfRankAppend(a + b + c, d, k);
    OfRankAppend(a + b, c, k);
    OfRankAppend(a, b, k);
  }

  /** Before a task of rank `r` at position `j`, fewer tasks of rank `r` than in all of `s`. */
  lemma OfRankPrefixBound(s: seq<Task>, r: int, j: nat)
    requires j < |s| && Rank(s[j].priority) == r
    ensures |OfRank(s[..j], r)| < |OfRank(s, r)|
  {
    assert s == s[..j] + s[j..];
    OfRankAppend(s[..j], s[j..], r);
    assert s[j..] == [s[j]] + s[j + 1..];
    OfRankAppend([s[j]], s[j + 1..], r);
    assert [s[j]][..0] == [];
  }

  lemma {:induction false} BucketsGrow(s: seq<Task>, m: nat, n: nat)
    requires m <= n
    ensures |Buckets(s, m)| <= |Buckets(s, n)|
    decreases n
  {
    if m < n {
      BucketsGrow(s, m, n - 1);
    }
  }

  lemma BucketsLength(s: seq<Task>)
    ensures |Buckets(s, 4)| == |s|
  {
    PrioritySortedPermutation(s);
  }

  /** Selecting from one more task of `s` adds that task exactly when it has the rank. */
  lemma OfRankStep(s: seq<Task>, r: int, j: nat)
    requires j < |s|
    ensures OfRank(s[..j + 1], r) == OfRank(s[..j], r) + (if Rank(s[j].priority) == r then [s[j]] else [])
  {
    assert s[..j + 1][..j] == s[..j];
  }

  /** Writes `x` at position `i`, after the unchanged prefix, leaving the positions after `i` unchanged. */
  method Place(a: array<Task>, i: nat, x: Task)
    requires i < a.Length
    modifies a
    ensures a[..i + 1] == old(a[..i]) + [x]
    ensures forall m :: i < m < a.Length ==> a[m] == old(a[m])
  {
    a[i] := x;
    assert a[..i + 1] == a[..i] + [x];
  }

  /** Writes the tasks of `s` of rank `r`, in order, into `a` from position `k` on. */
  method CopyRank(a: array<Task>, s: seq<Task>, r: int, k: nat) returns (next: nat)
    requires k + |OfRank(s, r)| <= a.Length
    modifies a
    ensures next == k + |OfRank(s, r)|
    ensures a[..next] == old(a[..k]) + OfRank(s, r)
    ensures a[next..] == old(a[next..])
  {
    ghost var prefix := a[..k];
    ghost var taken: seq<Task> := [];
    ghost var end := k + |OfRank(s, r)|;
    next := k;
    for j := 0 to |s|
      invariant taken == OfRank(s[..j], r)
      invariant next == k + |taken| <= end
      invariant a[..next] == prefix + taken
      invariant forall i :: end <= i < a.Length ==> a[i] == old(a[i])
    {
      OfRankStep(s, r, j);
      if Rank(s[j].priority) == r {
        OfRankPrefixBound(s, r, j);
        Place(a, next, s[j]);
        taken := taken + [s[j]];
        next := next + 1;
      }
    }
    assert s[..|s|] == s;
  }

  /**
   * `tasks.sort((a, b) => priorityOrder[a.priority] - priorityOrder[b.priority])`, in place: the tasks
   * are written back rank by rank, which for a stable sort on a rank key is the one possible result.
   */
  method SortByPriority(a: array<Task>)
    modifies a
    ensures a[..] == PrioritySorted(old(a[..]))
  {
    var s := a[..];
    BucketsLength(s);
    var k := 0;
    for r := 1 to 5
      invariant k == |Buckets(s, r - 1)| <= a.Length
      invariant a[..k] == Buckets(s, r - 1)
    {
      BucketsGrow(s, r, 4);
      assert Buckets(s, r) == Buckets(s, r - 1) + OfRank(s, r);
      k := CopyRank(a, s, r, k);
    }
    assert k == |s| == a.Length;
    assert a[..] == a[..k];
  }

  /** The order `list` shows: sorted by priority when the first `--sort=` token says `priority`. */
  function Arranged(tasks: seq<Task>, rawParams: seq<string>): (r: seq<Task>)
    ensures multiset(r) == multiset(tasks) && |r| == |tasks|
  {
    PrioritySortedPermutation(tasks);
    if FirstValue(rawParams, SortFlag) == Some("priority") then PrioritySorted(tasks) else tasks
  }

  /** One printed entry. */
  datatype Line = Line(task: Task, due: DueStatus)

  datatype ListView = NoTasks | Shown(lines: seq<Line>)

  /** The `list` command: every stored task, in the chosen order, each with its due label. */
  method ListTasks(tasks: seq<Task>, rawParams: seq<string>, today: Date, parse: string -> Option<Date>)
    returns (view: ListView)
    ensures view.NoTasks? <==> tasks == []
    ensures view.Shown? ==>
      |view.lines| == |tasks| &&
      forall k :: 0 <= k < |tasks| ==>
        view.lines[k].task == Arranged(tasks, rawParams)[k] &&
        view.lines[k].due == Classify(Arranged(tasks, rawParams)[k].dueDate, today, parse)
  {
    if |tasks| == 0 {
      return NoTasks;
    }
    var a := new Task[|tasks|](i requires 0 <= i < |tasks| => tasks[i]);
    assert a[..] == tasks;
    if FirstValue(rawParams, SortFlag) == Some("priority") {
      SortByPriority(a);
    }
    var lines: seq<Line> := [];
    for k := 0 to a.Length
      invariant |lines| == k
      invariant forall m :: 0 <= m < k ==> lines[m] == Line(a[m], Classify(a[m].dueDate, today, parse))
    {
      lines := lines + [Line(a[k], Classify(a[k].dueDate, today, parse))];
    }
    view := Shown(lines);
  }
}
