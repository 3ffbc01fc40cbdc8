// Values the screens derive from the task store on every render: the tasks
// of one day, completion counts, the rounded progress percentages and the
// "upcoming" list (incomplete tasks, earliest date first, at most five).

module Views {
  import opened Options
  import opened Dates
  import opened Seqs
  import opened Tasks

  /** `tasks.filter(task => task.date === key)`: the tasks of one day. */
  function OnDate(tasks: seq<Task>, day: Date): seq<Task> {
    Filter(tasks, (t: Task) => t.date == day)
  }

  function CompletedCount(tasks: seq<Task>): nat {
    |Filter(tasks, (t: Task) => t.completed)|
  }

  /** `Math.round(completed / total * 100)` on exact rationals: the integer
      nearest to 100·completed/total, halves rounded up. */
  function Percent(completed: nat, total: nat): (r: int)
    requires total > 0
    ensures 2 * total * r - total <= 200 * completed < 2 * total * r + total
  {
    var r := (200 * completed + total) / (2 * total);
    DivBounds(200 * completed + total, 2 * total);
    r
  }

  lemma DivBounds(a: int, b: int)
    requires b > 0
    ensures b * (a / b) <= a < b * (a / b) + b
  {
  }

  /** The "today" header shows a percentage only when the day has tasks. */
  function DayProgress(tasks: seq<Task>, day: Date): (r: Option<int>)
    ensures r.Some? <==> |OnDate(tasks, day)| > 0
    ensures r.Some? ==> r.value == Percent(CompletedCount(OnDate(tasks, day)), |OnDate(tasks, day)|)
  {
    var today := OnDate(tasks, day);
    if |today| > 0 then Some(Percent(CompletedCount(today), |today|)) else None
  }

  /** `overallProgress` of the tasks page: 0 for an empty store. */
  function OverallProgress(tasks: seq<Task>): (r: int)
    ensures tasks == [] ==> r == 0
    ensures tasks != [] ==> r == Percent(CompletedCount(tasks), |tasks|)
  {
    if |tasks| > 0 then Percent(CompletedCount(tasks), |tasks|) else 0
  }

  // ---------------------------------------------------------------------------
  // Upcoming: filter incomplete, stable sort by date, take five

  predicate AllValid(tasks: seq<Task>) {
    forall t :: t in tasks ==> t.date.Valid()
  }

  /** Sort key of `new Date(a.date) - new Date(b.date)`. */
  function Key(t: Task): int
    requires t.date.Valid()
  {
    DayNumber(t.date)
  }

  predicate SortedByDate(s: seq<Task>)
    requires AllValid(s)
  {
    forall i, j :: 0 <= i < j < |s| ==> Key(s[i]) <= Key(s[j])
  }

  /** Place `x` after every task of the same or an earlier day. */
  function Insert(sorted: seq<Task>, x: Task): (r: seq<Task>)
    requires AllValid(sorted) && x.date.Valid()
    ensures AllValid(r) && multiset(r) == multiset(sorted) + multiset{x}
  {
    if sorted == [] then [x]
    else
      var last := sorted[|sorted| - 1];
      var front := sorted[..|sorted| - 1];
      assert sorted == front + [last];
      if Key(last) <= Key(x) then sorted + [x] else Insert(front, x) + [last]
  }

  /** A stable sort by date, as `Array.prototype.sort` with a date comparator. */
  function SortByDate(s: seq<Task>): (r: seq<Task>)
    requires AllValid(s)
    ensures AllValid(r) && multiset(r) == multiset(s)
  {
    if s == [] then []
    else
      assert s == s[..|s| - 1] + [s[|s| - 1]];
      Insert(SortByDate(s[..|s| - 1]), s[|s| - 1])
  }

  function Incomplete(tasks: seq<Task>): seq<Task> {
    Filter(tasks, (t: Task) => !t.completed)
  }

  const UpcomingLimit: nat := 5

  /** The "upcoming" card: `filter(!completed).sort(by date).slice(0, 5)`.
      Filtering copies the store, so the store itself is not reordered. */
  function Upcoming(tasks: seq<Task>): seq<Task>
    requires AllValid(tasks)
  {
    var sorted := SortByDate(Incomplete(tasks));
    if |sorted| <= UpcomingLimit then sorted else sorted[..UpcomingLimit]
  }

  // ---------------------------------------------------------------------------
  // Lemmas: per-day views and counts

  /** The day view holds exactly the tasks of that day, in store order. */
  lemma OnDateSpec(tasks: seq<Task>, day: Date)
    ensures forall t :: t in OnDate(tasks, day) <==> t in tasks && t.date == day
    ensures IsSubsequence(OnDate(tasks, day), tasks)
    ensures CompletedCount(OnDate(tasks, day)) <= |OnDate(tasks, day)|
  {
    FilterIsSubsequence(tasks, (t: Task) => t.date == day);
  }

  /** Appending a task extends the view of its own day by that task and
      leaves every other day's view unchanged. */
  lemma OnDateAfterAppend(tasks: seq<Task>, t: Task, day: Date)
    ensures OnDate(tasks + [t], day) == OnDate(tasks, day) + (if t.date == day then [t] else [])
  {
    FilterAppend(tasks, [t], (u: Task) => u.date == day);
  }

  /** The rounded percentage of a part of a whole lies in [0, 100]; it is 0
      only when less than half a percent is done and 100 only when at least
      99.5 percent is. */
  lemma PercentInRange(completed: nat, total: nat)
    requires 0 < total && completed <= total
    ensures 0 <= Percent(completed, total) <= 100
    ensures completed == 0 ==> Percent(completed, total) == 0
    ensures completed == total ==> Percent(completed, total) == 100
  {
    var r := Percent(completed, total);
    MulBoundAt(total, r, 0);
    MulBoundAt(total, r, 101);
    MulBoundAt(total, r, 1);
    MulBoundAt(total, r, 100);
  }

  /** `2·total·r` against `2·total·m`, for r on either side of m. */
  lemma MulBoundAt(total: nat, r: int, m: int)
    requires total > 0
    ensures r >= m ==> 2 * total * r >= 2 * total * m
    ensures r < m ==> 2 * total * r <= 2 * total * m - 2 * total
  {
    MulBound(total, r - m);
    assert 2 * total * r == 2 * total * (r - m) + 2 * total * m;
  }

  lemma MulBound(total: nat, k: int)
    requires total > 0
    ensures k >= 0 ==> 2 * total * k >= 0
    ensures k < 0 ==> 2 * total * k <= -2 * total
  {
    if k < 0 {
      var m: nat := -k - 1;
      assert 2 * total * k == -2 * total - 2 * total * m;
    }
  }

  /** The overall percentage lies in [0, 100]. */
  lemma OverallProgressInRange(tasks: seq<Task>)
    ensures 0 <= OverallProgress(tasks) <= 100
  {
    if tasks != [] {
      PercentInRange(CompletedCount(tasks), |tasks|);
    }
  }

  // ---------------------------------------------------------------------------
  // Lemmas: the upcoming list

  lemma {:induction false} InsertSorted(sorted: seq<Task>, x: Task)
    requires AllValid(sorted) && x.date.Valid() && SortedByDate(sorted)
    ensures SortedByDate(Insert(sorted, x))
    decreases |sorted|
  {
    if sorted != [] {
      var last := sorted[|sorted| - 1];
      var front := sorted[..|sorted| - 1];
      assert sorted == front + [last];
      if Key(last) > Key(x) {
        InsertSorted(front, x);
        var r := Insert(front, x);
        assert Insert(sorted, x) == r + [last];
        assert forall i :: 0 <= i < |front| ==> front[i] == sorted[i];
        InsertBelow(front, x, Key(last));
        AppendSorted(r, last);
      } else {
        AppendSorted(sorted, x);
      }
    }
  }

  /** Inserting keeps every key under a bound that all the keys already meet. */
  lemma InsertBelow(s: seq<Task>, x: Task, bound: int)
    requires AllValid(s) && x.date.Valid() && Key(x) <= bound
    requires forall i :: 0 <= i < |s| ==> Key(s[i]) <= bound
    ensures forall i :: 0 <= i < |Insert(s, x)| ==> Key(Insert(s, x)[i]) <= bound
  {
    var r := Insert(s, x);
    forall i | 0 <= i < |r| ensures Key(r[i]) <= bound {
      assert r[i] in multiset(s) + multiset{x};
      if r[i] != x {
        var j :| 0 <= j < |s| && s[j] == r[i];
      }
    }
  }

  lemma AppendSorted(s: seq<Task>, x: Task)
    requires AllValid(s) && x.date.Valid() && SortedByDate(s)
    requires forall i :: 0 <= i < |s| ==> Key(s[i]) <= Key(x)
    ensures AllValid(s + [x]) && SortedByDate(s + [x])
  {
    var r := s + [x];
    assert forall i :: 0 <= i < |s| ==> r[i] == s[i];
  }

  /** The sort orders by date. */
  lemma {:induction false} SortByDateSorted(s: seq<Task>)
    requires AllValid(s)
    ensures SortedByDate(SortByDate(s))
  {
    if s != [] {
      SortByDateSorted(s[..|s| - 1]);
      InsertSorted(SortByDate(s[..|s| - 1]), s[|s| - 1]);
    }
  }

  lemma {:induction false} InsertKeepsDays(sorted: seq<Task>, x: Task, day: Date)
    requires AllValid(sorted) && x.date.Valid()
    ensures OnDate(Insert(sorted, x), day) == OnDate(sorted, day) + (if x.date == day then [x] else [])
    decreases |sorted|
  {
    if sorted != [] {
      var last := sorted[|sorted| - 1];
      var front := sorted[..|sorted| - 1];
      assert sorted == front + [last];
      var X: seq<Task> := if x.date == day then [x] else [];
      var L: seq<Task> := if last.date == day then [last] else [];
      OnDateAfterAppend(front, last, day);
      assert OnDate(sorted, day) == OnDate(front, day) + L;
      if Key(last) <= Key(x) {
        OnDateAfterAppend(sorted, x, day);
      } else {
        assert Insert(sorted, x) == Insert(front, x) + [last];
        InsertKeepsDays(front, x, day);
        OnDateAfterAppend(Insert(front, x), last, day);
        assert X == [] || L == [];
        assert OnDate(Insert(sorted, x), day) == OnDate(front, day) + X + L;
        SwapAroundEmpty(OnDate(front, day), X, L);
      }
    }
  }

  lemma SwapAroundEmpty(f: seq<Task>, a: seq<Task>, b: seq<Task>)
    requires a == [] || b == []
    ensures f + a + b == f + b + a
  {
  }

  /** The sort is stable: the tasks of any one day keep their store order. */
  lemma {:induction false} SortByDateStable(s: seq<Task>, day: Date)
    requires AllValid(s)
    ensures OnDate(SortByDate(s), day) == OnDate(s, day)
  {
    if s != [] {
      var front := s[..|s| - 1];
      assert s == front + [s[|s| - 1]];
      SortByDateStable(front, day);
      InsertKeepsDays(SortByDate(front), s[|s| - 1], day);
      OnDateAfterAppend(front, s[|s| - 1], day);
    }
  }

  /** Sorting neither adds nor drops tasks. */
  lemma SortByDateSameTasks(s: seq<Task>)
    requires AllValid(s)
    ensures |SortByDate(s)| == |s|
    ensures forall t :: t in SortByDate(s) <==> t in s
  {
    var r := SortByDate(s);
    assert |multiset(r)| == |multiset(s)|;
    forall t ensures t in r <==> t in s {
      assert t in r <==> t in multiset(r);
      assert t in s <==> t in multiset(s);
    }
  }

  /** The upcoming list: at most five tasks, each an incomplete task of the
      store, in date order, and as many as there are incomplete tasks, up to five. */
  lemma UpcomingSpec(tasks: seq<Task>)
    requires AllValid(tasks)
    ensures |Upcoming(tasks)| <= UpcomingLimit
    ensures |Upcoming(tasks)| == if |Incomplete(tasks)| < UpcomingLimit then |Incomplete(tasks)| else UpcomingLimit
    ensures forall t :: t in Upcoming(tasks) ==> t in tasks && !t.completed
    ensures SortedByDate(Upcoming(tasks))
  {
    var inc := Incomplete(tasks);
    SortByDateSorted(inc);
    SortByDateSameTasks(inc);
    var sorted := SortByDate(inc);
    PrefixOfSorted(sorted, |Upcoming(tasks)|);
  }

  /** A prefix of a date-ordered list is date-ordered and holds only its tasks. */
  lemma PrefixOfSorted(s: seq<Task>, n: nat)
    requires AllValid(s) && SortedByDate(s) && n <= |s|
    ensures AllValid(s[..n]) && SortedByDate(s[..n])
    ensures forall t :: t in s[..n] ==> t in s
  {
  }

  /** No incomplete task left out of the upcoming list is dated earlier than
      a task on it: the list holds the earliest incomplete tasks. */
  lemma UpcomingAreEarliest(tasks: seq<Task>)
    requires AllValid(tasks)
    ensures forall t, u :: t in Incomplete(tasks) && t !in Upcoming(tasks) && u in Upcoming(tasks) ==> Key(u) <= Key(t)
  {
    var inc := Incomplete(tasks);
    SortByDateSorted(inc);
    SortByDateSameTasks(inc);
    var sorted := SortByDate(inc);
    var r := Upcoming(tasks);
    forall t, u | t in inc && t !in r && u in r ensures Key(u) <= Key(t) {
      var i :| 0 <= i < |sorted| && sorted[i] == t;
      var j :| 0 <= j < |r| && r[j] == u;
      assert sorted[j] == u;
      assert i >= |r|;
    }
  }

  /** Two incomplete tasks dated 5 and 3 March and a completed one dated
      1 March: the upcoming list is the 3 March task, then the 5 March one. */
  lemma UpcomingExample(a: Task, b: Task, c: Task)
    requires a.date == Date(2024, 2, 5) && !a.completed
    requires b.date == Date(2024, 2, 1) && b.completed
    requires c.date == Date(2024, 2, 3) && !c.completed
    ensures AllValid([a, b, c]) && Upcoming([a, b, c]) == [c, a]
  {
    var keep := (t: Task) => !t.completed;
    assert [a, b, c][1..] == [b, c] && [b, c][1..] == [c] && [c][1..] == [];
    assert Filter([c], keep) == [c];
    assert Filter([b, c], keep) == [c];
    assert Incomplete([a, b, c]) == [a, c];
    DayNumberOrder(c.date, a.date);
    assert [a, c][..1] == [a] && [a][..0] == [];
    assert SortByDate([a]) == [a];
    assert Insert([a], c) == [c, a];
  }
}
