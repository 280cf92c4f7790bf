/** The derived view of the task list: the status filter, the due-date / creation-date
    ordering, and the pending / completed counters. All are pure functions of the
    in-memory task collection. */
module TaskListView {
  import opened Wrappers
  import opened TaskTypes
  import opened Seqs

  /** The status filter selected in the list header. */
  datatype StatusFilter = All | Pending | Completed

  /** Whether a task passes the status filter. */
  predicate Keeps(f: StatusFilter, t: Task) {
    match f
    case Pending => !t.completed
    case Completed => t.completed
    case All => true
  }

  /** The status filter as a predicate value, so that every use filters by the same term. */
  function KeepsStatus(f: StatusFilter): Task -> bool {
    t => Keeps(f, t)
  }

  /** The tasks that pass the status filter, in collection order. */
  function FilterByStatus(tasks: seq<Task>, f: StatusFilter): (r: seq<Task>)
    ensures forall t :: multiset(r)[t] == if Keeps(f, t) then multiset(tasks)[t] else 0
    ensures IsSubsequence(r, tasks)
  {
    FilterMultiplicity(tasks, KeepsStatus(f));
    FilterIsSubsequence(tasks, KeepsStatus(f));
    Filter(tasks, KeepsStatus(f))
  }

  /** `Pending` keeps exactly the open tasks, `Completed` exactly the done ones,
      and `All` returns the collection itself. */
  lemma FilterByStatusCases(tasks: seq<Task>)
    ensures forall t :: t in FilterByStatus(tasks, Pending) <==> t in tasks && !t.completed
    ensures forall t :: t in FilterByStatus(tasks, Completed) <==> t in tasks && t.completed
    ensures FilterByStatus(tasks, All) == tasks
  {
    FilterKeepsAll(tasks, KeepsStatus(All));
  }

  // ---------------------------------------------------------------------------------
  // Ordering

  /** The comparator handed to `sort`: negative when `a` belongs before `b`.
      Two dated tasks compare by due date, a dated task precedes an undated one,
      and two undated tasks compare by creation time, newest first. */
  function Compare(a: Task, b: Task): (r: int)
    ensures a.dueDate.Some? && b.dueDate.None? ==> r < 0
    ensures a.dueDate.None? && b.dueDate.Some? ==> r > 0
    ensures a.dueDate.Some? && b.dueDate.Some? ==> (r <= 0 <==> a.dueDate.value <= b.dueDate.value)
    ensures a.dueDate.None? && b.dueDate.None? ==> (r <= 0 <==> a.createdAt >= b.createdAt)
  {
    if a.dueDate.Some? && b.dueDate.Some? then a.dueDate.value - b.dueDate.value
    else if a.dueDate.Some? then -1
    else if b.dueDate.Some? then 1
    else b.createdAt - a.createdAt
  }

  /** `a` may be placed before `b` in the sorted view. */
  predicate Precedes(a: Task, b: Task) {
    Compare(a, b) <= 0
  }

  /** The comparator is consistent: it orders any two tasks one way or the other,
      is transitive, and its ties form an equivalence. */
  lemma CompareIsConsistent(a: Task, b: Task, c: Task)
    ensures Precedes(a, b) || Precedes(b, a)
    ensures Compare(a, b) == -Compare(b, a)
    ensures Precedes(a, b) && Precedes(b, c) ==> Precedes(a, c)
    ensures Compare(a, b) == 0 && Compare(b, c) == 0 ==> Compare(a, c) == 0
  {
  }

  /** Every earlier element may precede every later one. */
  predicate Sorted(s: seq<Task>) {
    forall i, j :: 0 <= i < j < |s| ==> Precedes(s[i], s[j])
  }

  /** Inserts `x` in front of the first element it may precede. Since `x` stands before all
      of `s` in the input, placing it ahead of the elements it ties with keeps the sort stable. */
  function Insert(x: Task, s: seq<Task>): (r: seq<Task>)
    ensures multiset(r) == multiset(s) + multiset{x}
    ensures |r| == |s| + 1
  {
    if s == [] then [x]
    else if Precedes(x, s[0]) then [x] + s
    else
      assert s == [s[0]] + s[1..];
      [s[0]] + Insert(x, s[1..])
  }

  lemma {:induction false} InsertSorted(x: Task, s: seq<Task>)
    requires Sorted(s)
    ensures Sorted(Insert(x, s))
    decreases |s|
  {
    if s != [] && !Precedes(x, s[0]) {
      var rest := Insert(x, s[1..]);
      InsertSorted(x, s[1..]);
      forall y | y in rest
        ensures Precedes(s[0], y)
      {
        assert y in multiset(rest);
        if y != x {
          assert y in s[1..];
          var k :| 0 <= k < |s[1..]| && s[1..][k] == y;
          assert s[k + 1] == y;
        }
      }
      var r := [s[0]] + rest;
      forall i, j | 0 <= i < j < |r|
        ensures Precedes(r[i], r[j])
      {
        if i == 0 {
          assert r[j] == rest[j - 1];
          assert rest[j - 1] in rest;
        } else {
          assert r[i] == rest[i - 1] && r[j] == rest[j - 1];
        }
      }
    }
  }

  /** The sort applied to the filtered tasks: a stable sort under `Compare`. The result
      is a permutation of the input and is ordered by the comparator. */
  function SortView(s: seq<Task>): (r: seq<Task>)
    ensures multiset(r) == multiset(s)
    ensures Sorted(r)
    decreases |s|
  {
    if s == [] then []
    else
      assert s == [s[0]] + s[1..];
      InsertSorted(s[0], SortView(s[1..]));
      Insert(s[0], SortView(s[1..]))
  }

  /** The list shown on screen for the given collection and status filter: the tasks that
      pass the filter, each as often as the collection holds it, ordered by the comparator. */
  function View(tasks: seq<Task>, f: StatusFilter): (r: seq<Task>)
    ensures forall t :: multiset(r)[t] == if Keeps(f, t) then multiset(tasks)[t] else 0
    ensures Sorted(r)
  {
    SortView(FilterByStatus(tasks, f))
  }

  /** The view is a permutation of the status-filtered collection: it shows every kept task
      exactly as often as the collection holds it, and nothing else. */
  lemma ViewIsFilteredPermutation(tasks: seq<Task>, f: StatusFilter)
    ensures multiset(View(tasks, f)) == multiset(FilterByStatus(tasks, f))
    ensures forall t :: multiset(View(tasks, f))[t] == if Keeps(f, t) then multiset(tasks)[t] else 0
    ensures forall t :: t in View(tasks, f) <==> t in tasks && Keeps(f, t)
  {
  }

  /** Every task with a due date is shown before every task without one. */
  lemma ViewDatedFirst(tasks: seq<Task>, f: StatusFilter)
    ensures var v := View(tasks, f);
      forall i, j :: 0 <= i < |v| && 0 <= j < |v| && v[i].dueDate.Some? && v[j].dueDate.None? ==> i < j
  {
  }

  /** Dated tasks appear in ascending due-date order; undated tasks newest first. */
  lemma ViewOrderWithinGroups(tasks: seq<Task>, f: StatusFilter)
    ensures var v := View(tasks, f);
      forall i, j :: 0 <= i < j < |v| && v[i].dueDate.Some? && v[j].dueDate.Some? ==>
        v[i].dueDate.value <= v[j].dueDate.value
    ensures var v := View(tasks, f);
      forall i, j :: 0 <= i < j < |v| && v[i].dueDate.None? && v[j].dueDate.None? ==>
        v[i].createdAt >= v[j].createdAt
  {
  }

  // ---------------------------------------------------------------------------------
  // Stability

  /** The tasks the comparator cannot tell apart from `k`. */
  function TiedWith(k: Task): Task -> bool {
    t => Compare(t, k) == 0
  }

  lemma {:induction false} InsertKeepsTies(x: Task, s: seq<Task>, k: Task)
    ensures Filter(Insert(x, s), TiedWith(k)) ==
      if Compare(x, k) == 0 then [x] + Filter(s, TiedWith(k)) else Filter(s, TiedWith(k))
    decreases |s|
  {
    var p := TiedWith(k);
    if s == [] {
    } else if Precedes(x, s[0]) {
      assert ([x] + s)[1..] == s;
    } else {
      var rest := Insert(x, s[1..]);
      InsertKeepsTies(x, s[1..], k);
      assert ([s[0]] + rest)[1..] == rest;
      if Compare(x, k) == 0 {
        CompareIsConsistent(x, s[0], k);
        CompareIsConsistent(s[0], x, k);
        assert !p(s[0]);
      }
    }
  }

  /** The sort is stable: tasks the comparator ties keep their relative input order. */
  lemma {:induction false} SortViewStable(s: seq<Task>, k: Task)
    ensures Filter(SortView(s), TiedWith(k)) == Filter(s, TiedWith(k))
    decreases |s|
  {
    if s != [] {
      SortViewStable(s[1..], k);
      InsertKeepsTies(s[0], SortView(s[1..]), k);
    }
  }

  /** A non-empty sequence meets the tie class of its own head. */
  lemma OwnTieClass(s: seq<Task>)
    ensures s != [] ==> Filter(s, TiedWith(s[0])) != []
  {
    if s != [] {
      assert s[0] in Filter(s, TiedWith(s[0]));
    }
  }

  /** Two ordered sequences with the same tie classes, each in the same order, are equal. */
  lemma {:induction false} SortedTiesDetermine(a: seq<Task>, b: seq<Task>)
    requires Sorted(a) && Sorted(b)
    requires forall k :: Filter(a, TiedWith(k)) == Filter(b, TiedWith(k))
    ensures a == b
    decreases |a|
  {
    OwnTieClass(a);
    OwnTieClass(b);
    if a != [] && b != [] {
      var x, y := a[0], b[0];
      assert y in a by {
        assert y in Filter(b, TiedWith(y));
      }
      assert x in b by {
        assert x in Filter(a, TiedWith(x));
      }
      assert Precedes(x, y) by {
        var i :| 0 <= i < |a| && a[i] == y;
      }
      assert Precedes(y, x) by {
        var j :| 0 <= j < |b| && b[j] == x;
      }
      CompareIsConsistent(x, y, x);
      assert Filter(a, TiedWith(x)) == [x] + Filter(a[1..], TiedWith(x));
      assert Filter(b, TiedWith(x)) == [y] + Filter(b[1..], TiedWith(x));
      assert x == y;
      forall k
        ensures Filter(a[1..], TiedWith(k)) == Filter(b[1..], TiedWith(k))
      {
        assert Filter(a, TiedWith(k)) == Filter(b, TiedWith(k));
        if TiedWith(k)(x) {
          assert Filter(a, TiedWith(k)) == [x] + Filter(a[1..], TiedWith(k));
          assert Filter(b, TiedWith(k)) == [x] + Filter(b[1..], TiedWith(k));
          assert ([x] + Filter(a[1..], TiedWith(k)))[1..] == Filter(a[1..], TiedWith(k));
          assert ([x] + Filter(b[1..], TiedWith(k)))[1..] == Filter(b[1..], TiedWith(k));
        } else {
          assert Filter(a, TiedWith(k)) == Filter(a[1..], TiedWith(k));
          assert Filter(b, TiedWith(k)) == Filter(b[1..], TiedWith(k));
        }
      }
      SortedTiesDetermine(a[1..], b[1..]);
      assert a == [x] + a[1..] && b == [y] + b[1..];
    }
  }

  /** The view's sort is the only stable sort under the comparator: any ordered sequence that
      keeps every tie class of `s` in its input order is `SortView(s)`. */
  lemma SortViewUnique(s: seq<Task>, r: seq<Task>)
    requires Sorted(r)
    requires forall k :: Filter(r, TiedWith(k)) == Filter(s, TiedWith(k))
    ensures r == SortView(s)
  {
    forall k
      ensures Filter(r, TiedWith(k)) == Filter(SortView(s), TiedWith(k))
    {
      SortViewStable(s, k);
    }
    SortedTiesDetermine(r, SortView(s));
  }

  /** Sorting a sequence that is already ordered leaves it as it is; hence sorting twice
      is sorting once, and the view does not move when it is recomputed. */
  lemma {:induction false} SortViewOfSorted(s: seq<Task>)
    requires Sorted(s)
    ensures SortView(s) == s
    decreases |s|
  {
    if s != [] {
      SortViewOfSorted(s[1..]);
      assert SortView(s[1..]) == s[1..];
      if |s| > 1 {
        assert Precedes(s[0], s[1]);
        assert s[1..][0] == s[1];
      }
      assert [s[0]] + s[1..] == s;
    }
  }

  lemma SortViewIdempotent(s: seq<Task>)
    ensures SortView(SortView(s)) == SortView(s)
  {
    SortViewOfSorted(SortView(s));
  }

  lemma SortTwoDated(late: Task, early: Task)
    requires late.dueDate == Some(20) && early.dueDate == Some(10)
    ensures SortView([late, early]) == [early, late]
  {
  }

  lemma InsertUndatedLast(undated: Task, early: Task, late: Task)
    requires undated.dueDate.None? && late.dueDate.Some? && early.dueDate.Some?
    ensures Insert(undated, [early, late]) == [early, late, undated]
  {
    assert [early, late][1..] == [late];
    assert Insert(undated, [late]) == [late] + Insert(undated, []);
  }

  /** Three tasks: one undated, one due at 20, one due at 10. The view lists them as
      due 10, due 20, then the undated one. */
  lemma ViewExample(undated: Task, late: Task, early: Task)
    requires undated.dueDate.None? && late.dueDate == Some(20) && early.dueDate == Some(10)
    ensures View([undated, late, early], All) == [early, late, undated]
  {
    FilterByStatusCases([undated, late, early]);
    SortTwoDated(late, early);
    InsertUndatedLast(undated, early, late);
    assert [undated, late, early][1..] == [late, early];
  }

  // ---------------------------------------------------------------------------------
  // Counters

  /** The number of done tasks in the in-memory collection, whatever the active status
      filter. A search narrows that collection, so the counter follows the search. */
  function CompletedCount(tasks: seq<Task>): (r: nat)
    ensures r <= |tasks|
    ensures r == 0 <==> forall t :: t in tasks ==> !t.completed
  {
    var kept := Filter(tasks, IsCompleted);
    assert kept != [] ==> kept[0] in kept;
    |kept|
  }

  /** The number of open tasks in the in-memory collection, whatever the active status
      filter. A search narrows that collection, so the counter follows the search. */
  function PendingCount(tasks: seq<Task>): (r: nat)
    ensures r <= |tasks|
    ensures r == 0 <==> forall t :: t in tasks ==> t.completed
  {
    var kept := Filter(tasks, IsPending);
    assert kept != [] ==> kept[0] in kept;
    |kept|
  }

  /** Every task is counted exactly once, as pending or as completed. */
  lemma CountsPartition(tasks: seq<Task>)
    ensures PendingCount(tasks) + CompletedCount(tasks) == |tasks|
  {
    FilterPartition(tasks, IsPending, IsCompleted);
  }

  /** The counters do not depend on the order of the collection. */
  lemma CountsIgnoreOrder(a: seq<Task>, b: seq<Task>)
    requires multiset(a) == multiset(b)
    ensures PendingCount(a) == PendingCount(b)
    ensures CompletedCount(a) == CompletedCount(b)
  {
    FilterSizeIgnoresOrder(a, b, IsPending);
    FilterSizeIgnoresOrder(a, b, IsCompleted);
  }

  /** Each counter equals the length of the view under the matching filter; the counters
      themselves are those of the in-memory collection, whatever the status filter. */
  lemma CountsMatchViews(tasks: seq<Task>)
    ensures PendingCount(tasks) == |View(tasks, Pending)|
    ensures CompletedCount(tasks) == |View(tasks, Completed)|
  {
    forall f: StatusFilter
      ensures |View(tasks, f)| == |FilterByStatus(tasks, f)|
    {
      assert multiset(View(tasks, f)) == multiset(FilterByStatus(tasks, f));
      assert |multiset(View(tasks, f))| == |View(tasks, f)|;
    }
    FilterSameAs(tasks, KeepsStatus(Pending), IsPending);
    FilterSameAs(tasks, KeepsStatus(Completed), IsCompleted);
  }
}
