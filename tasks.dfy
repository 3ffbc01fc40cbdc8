// The task store's records and the list updates the session applies to
// them: append, flip the completion flag by id, remove by id. Ids come from
// the clock and may repeat, so toggle and delete act on every task that
// carries the id.

module Seqs {

  /** `Array.prototype.filter`: the elements satisfying `keep`, in order. */
  function Filter<T(==,!new)>(s: seq<T>, keep: T -> bool): (r: seq<T>)
    ensures |r| <= |s|
    ensures forall x :: x in r <==> x in s && keep(x)
  {
    if s == [] then []
    else if keep(s[0]) then [s[0]] + Filter(s[1..], keep)
    else Filter(s[1..], keep)
  }

  /** `a` can be obtained from `b` by deleting elements: same relative order. */
  predicate IsSubsequence<T(==)>(a: seq<T>, b: seq<T>)
    decreases |b|
  {
    a == [] || (b != [] && (if a[0] == b[0] then IsSubsequence(a[1..], b[1..]) else IsSubsequence(a, b[1..])))
  }

  lemma {:induction false} FilterIsSubsequence<T(!new)>(s: seq<T>, keep: T -> bool)
    ensures IsSubsequence(Filter(s, keep), s)
  {
    if s != [] {
      FilterIsSubsequence(s[1..], keep);
      if keep(s[0]) {
        assert Filter(s, keep)[1..] == Filter(s[1..], keep);
      } else {
        SubsequenceOfTail(Filter(s, keep), s);
      }
    }
  }

  lemma {:induction false} SubsequenceOfTail<T>(a: seq<T>, b: seq<T>)
    requires b != [] && IsSubsequence(a, b[1..])
    ensures IsSubsequence(a, b)
    decreases |b|, 0
  {
    if a != [] && a[0] == b[0] {
      assert IsSubsequence(a[1..], b[1..]) by {
        TailOfSubsequence(a, b[1..]);
      }
    }
  }

  lemma {:induction false} TailOfSubsequence<T>(a: seq<T>, b: seq<T>)
    requires a != [] && IsSubsequence(a, b)
    ensures IsSubsequence(a[1..], b)
    decreases |b|, 1
  {
    if a[0] == b[0] {
      if a[1..] != [] {
        TailOfSubsequence(a[1..], b[1..]);
        SubsequenceOfTail(a[1..], b);
      }
    } else {
      TailOfSubsequence(a, b[1..]);
      if a[1..] != [] {
        SubsequenceOfTail(a[1..], b);
      }
    }
  }

  /** Filter keeps everything when everything passes. */
  lemma {:induction false} FilterAll<T(!new)>(s: seq<T>, keep: T -> bool)
    requires forall x :: x in s ==> keep(x)
    ensures Filter(s, keep) == s
  {
    if s != [] {
      FilterAll(s[1..], keep);
    }
  }

  /** Filter distributes over concatenation. */
  lemma {:induction false} FilterAppend<T(!new)>(a: seq<T>, b: seq<T>, keep: T -> bool)
    ensures Filter(a + b, keep) == Filter(a, keep) + Filter(b, keep)
  {
    if a == [] {
      assert a + b == b;
    } else {
      assert (a + b)[1..] == a[1..] + b;
      FilterAppend(a[1..], b, keep);
    }
  }

  /** Filtering by a predicate and by its negation splits the elements. */
  lemma {:induction false} FilterSplit<T(!new)>(s: seq<T>, keep: T -> bool, drop: T -> bool)
    requires forall i :: 0 <= i < |s| ==> drop(s[i]) == !keep(s[i])
    ensures multiset(Filter(s, keep)) + multiset(Filter(s, drop)) == multiset(s)
  {
    if s != [] {
      assert forall i :: 0 <= i < |s| - 1 ==> s[1..][i] == s[i + 1];
      FilterSplit(s[1..], keep, drop);
      var x, rest := s[0], s[1..];
      var k, d := Filter(rest, keep), Filter(rest, drop);
      var mk, md := multiset(k), multiset(d);
      assert mk + md == multiset(rest);
      assert multiset(s) == multiset{x} + multiset(rest) by {
        assert s == [x] + rest;
      }
      if keep(x) {
        KeepHead(s, keep);
        DropHead(s, drop);
        assert multiset(Filter(s, keep)) == multiset{x} + mk;
        assert multiset(Filter(s, drop)) == md;
      } else {
        DropHead(s, keep);
        KeepHead(s, drop);
        assert multiset(Filter(s, keep)) == mk;
        assert multiset(Filter(s, drop)) == multiset{x} + md;
      }
    }
  }

  lemma KeepHead<T(!new)>(s: seq<T>, keep: T -> bool)
    requires s != [] && keep(s[0])
    ensures Filter(s, keep) == [s[0]] + Filter(s[1..], keep)
  {
  }

  lemma DropHead<T(!new)>(s: seq<T>, keep: T -> bool)
    requires s != [] && !keep(s[0])
    ensures Filter(s, keep) == Filter(s[1..], keep)
  {
  }
}

module Tasks {
  import opened Dates
  import opened Seqs

  /** One to-do item; `date` is the day it belongs to (its date key). */
  datatype Task = Task(id: int, title: string, completed: bool, time: string, date: Date, priority: string)

  /** The record `addTask` builds. */
  function NewTask(id: int, title: string, time: string, date: Date): (t: Task)
    ensures !t.completed && t.priority == "medium"
    ensures t.id == id && t.title == title && t.time == time && t.date == date
  {
    Task(id, title, false, time, date, "medium")
  }

  function Flip(t: Task): Task {
    t.(completed := !t.completed)
  }

  /** The `map` of `toggleTaskCompletion`: tasks with the id get their flag
      flipped, every other task is left as it was. */
  function Toggled(tasks: seq<Task>, id: int): (r: seq<Task>)
    ensures |r| == |tasks|
    ensures forall i :: 0 <= i < |r| ==>
              r[i] == (if tasks[i].id == id then tasks[i].(completed := !tasks[i].completed) else tasks[i])
  {
    if tasks == [] then []
    else [if tasks[0].id == id then Flip(tasks[0]) else tasks[0]] + Toggled(tasks[1..], id)
  }

  /** The `filter` of `deleteTask`: every task whose id differs, in order. */
  function Without(tasks: seq<Task>, id: int): seq<Task> {
    Filter(tasks, (t: Task) => t.id != id)
  }

  // ---------------------------------------------------------------------------
  // Lemmas

  /** Toggling the same id twice restores the list. */
  lemma ToggleTwice(tasks: seq<Task>, id: int)
    ensures Toggled(Toggled(tasks, id), id) == tasks
  {
    var once := Toggled(tasks, id);
    assert forall i :: 0 <= i < |tasks| ==> once[i].id == tasks[i].id;
  }

  /** Toggling an id no task carries changes nothing. */
  lemma ToggleAbsent(tasks: seq<Task>, id: int)
    requires forall t :: t in tasks ==> t.id != id
    ensures Toggled(tasks, id) == tasks
  {
    assert forall i :: 0 <= i < |tasks| ==> tasks[i] in tasks;
  }

  /** Toggling changes only the completion flags: titles, times, dates, ids
      and the order of tasks stay as they were. */
  lemma ToggleKeepsAllButFlags(tasks: seq<Task>, id: int)
    ensures forall i :: 0 <= i < |tasks| ==>
              Toggled(tasks, id)[i].(completed := tasks[i].completed) == tasks[i]
  {
  }

  /** Deleting removes exactly the tasks that carry the id: none of them is
      left, every other task is kept, the survivors keep their relative
      order, and the removed and the kept together are the old store. */
  lemma DeleteSpec(tasks: seq<Task>, id: int)
    ensures forall t :: t in Without(tasks, id) <==> t in tasks && t.id != id
    ensures IsSubsequence(Without(tasks, id), tasks)
    ensures multiset(Without(tasks, id)) + multiset(Filter(tasks, (t: Task) => t.id == id)) == multiset(tasks)
  {
    FilterIsSubsequence(tasks, (t: Task) => t.id != id);
    FilterSplit(tasks, (t: Task) => t.id != id, (t: Task) => t.id == id);
  }

  /** Deleting an id no task carries changes nothing. */
  lemma DeleteAbsent(tasks: seq<Task>, id: int)
    requires forall t :: t in tasks ==> t.id != id
    ensures Without(tasks, id) == tasks
  {
    FilterAll(tasks, (t: Task) => t.id != id);
  }

  /** Deleting twice is deleting once. */
  lemma DeleteIdempotent(tasks: seq<Task>, id: int)
    ensures Without(Without(tasks, id), id) == Without(tasks, id)
  {
    FilterAll(Without(tasks, id), (t: Task) => t.id != id);
  }
}
