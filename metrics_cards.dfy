/** The "Important Reminders" cards: the three incomplete tasks due soonest. */
module MetricsCards {
  import opened TaskModel

  /** `new Date(dueDate)` as a day number. Only valid due dates are modelled,
      so every due date has a key. */
  type DayKey = string -> int

  const UpcomingLimit: nat := 3

  /** `tasks.filter(t => !t.completed)` */
  function Incomplete(tasks: seq<Task>): (r: seq<Task>)
    ensures |r| <= |tasks|
    ensures forall t :: t in r <==> t in tasks && !t.completed
    ensures r == [] <==> forall t :: t in tasks ==> t.completed
  {
    if tasks == [] then []
    else
      assert tasks == [tasks[0]] + tasks[1..];
      if tasks[0].completed then Incomplete(tasks[1..]) else [tasks[0]] + Incomplete(tasks[1..])
  }

  /** The filter keeps every copy of each incomplete task and no copy of a
      completed one. */
  lemma {:induction false} IncompleteMultiplicity(tasks: seq<Task>, t: Task)
    ensures multiset(Incomplete(tasks))[t] == if t.completed then 0 else multiset(tasks)[t]
  {
    if tasks != [] {
      var x, rest := tasks[0], tasks[1..];
      assert tasks == [x] + rest;
      IncompleteMultiplicity(rest, t);
      IncompleteCons(x, rest);
      assert multiset(tasks) == multiset([x]) + multiset(rest);
      assert multiset(Incomplete(tasks)) == multiset(if x.completed then [] else [x]) + multiset(Incomplete(rest));
    }
  }

  lemma IncompleteSubMultiset(tasks: seq<Task>)
    ensures multiset(Incomplete(tasks)) <= multiset(tasks)
  {
    forall t ensures multiset(Incomplete(tasks))[t] <= multiset(tasks)[t] {
      IncompleteMultiplicity(tasks, t);
    }
  }

  /** The filter works piecewise, so it keeps the store's order. */
  lemma {:induction false} IncompleteConcat(a: seq<Task>, b: seq<Task>)
    ensures Incomplete(a + b) == Incomplete(a) + Incomplete(b)
  {
    if a == [] {
      assert a + b == b;
    } else {
      var x, rest := a[0], a[1..];
      var head := if x.completed then [] else [x];
      assert a + b == [x] + (rest + b) && a == [x] + rest;
      IncompleteConcat(rest, b);
      assert Incomplete(a + b) == head + Incomplete(rest + b) by {
        IncompleteCons(x, rest + b);
      }
      assert Incomplete(a) == head + Incomplete(rest) by {
        IncompleteCons(x, rest);
      }
      ConcatAssoc(head, Incomplete(rest), Incomplete(b));
    }
  }

  lemma ConcatAssoc(x: seq<Task>, y: seq<Task>, z: seq<Task>)
    ensures x + (y + z) == (x + y) + z
  {
  }

  lemma IncompleteCons(x: Task, s: seq<Task>)
    ensures Incomplete([x] + s) == (if x.completed then [] else [x]) + Incomplete(s)
  {
    var r := [x] + s;
    assert r[0] == x && r[1..] == s;
  }

  ghost predicate SortedBy(key: DayKey, s: seq<Task>) {
    forall i, j :: 0 <= i < j < |s| ==> key(s[i].dueDate) <= key(s[j].dueDate)
  }

  /** Places `t` before the first task that is not due strictly earlier, so
      `t` stays ahead of the tasks with its own due date. */
  function Insert(key: DayKey, t: Task, s: seq<Task>): (r: seq<Task>)
    ensures |r| == |s| + 1
    ensures multiset(r) == multiset(s) + multiset{t}
    ensures forall x :: x in r <==> x == t || x in s
  {
    if s == [] || key(t.dueDate) <= key(s[0].dueDate) then [t] + s
    else
      assert s == [s[0]] + s[1..];
      [s[0]] + Insert(key, t, s[1..])
  }

  /** A sorted sequence stays sorted behind a head due no later than any of it. */
  lemma SortedCons(key: DayKey, x: Task, rest: seq<Task>)
    requires SortedBy(key, rest)
    requires forall y :: y in rest ==> key(x.dueDate) <= key(y.dueDate)
    ensures SortedBy(key, [x] + rest)
  {
    var r := [x] + rest;
    forall i, j | 0 <= i < j < |r| ensures key(r[i].dueDate) <= key(r[j].dueDate) {
      if i == 0 {
        assert r[j] == rest[j - 1];
      } else {
        assert r[i] == rest[i - 1] && r[j] == rest[j - 1];
      }
    }
  }

  lemma {:induction false} InsertKeepsSorted(key: DayKey, t: Task, s: seq<Task>)
    requires SortedBy(key, s)
    ensures SortedBy(key, Insert(key, t, s))
  {
    if s == [] || key(t.dueDate) <= key(s[0].dueDate) {
      forall y | y in s ensures key(t.dueDate) <= key(y.dueDate) {
        var j :| 0 <= j < |s| && s[j] == y;
      }
      SortedCons(key, t, s);
    } else {
      var rest := Insert(key, t, s[1..]);
      assert SortedBy(key, s[1..]) by {
        forall i, j | 0 <= i < j < |s[1..]| ensures key(s[1..][i].dueDate) <= key(s[1..][j].dueDate) {
          assert s[1..][i] == s[i + 1] && s[1..][j] == s[j + 1];
        }
      }
      InsertKeepsSorted(key, t, s[1..]);
      forall y | y in rest ensures key(s[0].dueDate) <= key(y.dueDate) {
        if y != t {
          var j :| 0 <= j < |s[1..]| && s[1..][j] == y;
          assert s[j + 1] == y;
        }
      }
      SortedCons(key, s[0], rest);
    }
  }

  /** The stable ascending sort of `Array.prototype.sort` with the
      comparator `new Date(a.dueDate) - new Date(b.dueDate)`. */
  function SortByDue(key: DayKey, tasks: seq<Task>): (r: seq<Task>)
    ensures |r| == |tasks|
    ensures multiset(r) == multiset(tasks)
    ensures SortedBy(key, r)
  {
    if tasks == [] then []
    else
      assert tasks == [tasks[0]] + tasks[1..];
      var rest := SortByDue(key, tasks[1..]);
      InsertKeepsSorted(key, tasks[0], rest);
      Insert(key, tasks[0], rest)
  }

  /** The upcoming-task chain: filter, sort, `slice(0, 3)`. */
  function Upcoming(key: DayKey, tasks: seq<Task>): (r: seq<Task>)
    ensures |r| == if |Incomplete(tasks)| < UpcomingLimit then |Incomplete(tasks)| else UpcomingLimit
    ensures r == [] <==> forall t :: t in tasks ==> t.completed
    ensures forall t :: t in r ==> t in tasks && !t.completed
    ensures multiset(r) <= multiset(tasks)
    ensures SortedBy(key, r)
  {
    var sorted := SortByDue(key, Incomplete(tasks));
    var n := if |sorted| < UpcomingLimit then |sorted| else UpcomingLimit;
    PrefixSubMultiset(sorted, n);
    IncompleteSubMultiset(tasks);
    sorted[..n]
  }

  lemma PrefixSubMultiset(s: seq<Task>, n: int)
    requires 0 <= n <= |s|
    ensures multiset(s[..n]) <= multiset(s)
    ensures forall t :: t in s[..n] ==> t in multiset(s)
  {
    assert s == s[..n] + s[n..];
  }

  /** The cards are the soonest: no incomplete task left out is due before
      a task that was shown. */
  lemma UpcomingAreSoonest(key: DayKey, tasks: seq<Task>, shown: Task, skipped: Task)
    requires shown in Upcoming(key, tasks)
    requires skipped in tasks && !skipped.completed && skipped !in Upcoming(key, tasks)
    ensures key(shown.dueDate) <= key(skipped.dueDate)
  {
    var sorted := SortByDue(key, Incomplete(tasks));
    var r := Upcoming(key, tasks);
    assert r == sorted[..|r|];
    assert skipped in multiset(Incomplete(tasks));
    assert skipped in sorted;
    var j :| 0 <= j < |sorted| && sorted[j] == skipped;
    var i :| 0 <= i < |r| && r[i] == shown;
    assert j >= |r|;
  }

  /* ---------- Stability ---------- */

  /** The tasks due on day `k`, in order. */
  function DueOn(key: DayKey, s: seq<Task>, k: int): seq<Task>
  {
    if s == [] then []
    else if key(s[0].dueDate) == k then [s[0]] + DueOn(key, s[1..], k)
    else DueOn(key, s[1..], k)
  }

  lemma {:induction false} DueOnConcat(key: DayKey, a: seq<Task>, b: seq<Task>, k: int)
    ensures DueOn(key, a + b, k) == DueOn(key, a, k) + DueOn(key, b, k)
  {
    if a == [] {
      assert a + b == b;
    } else {
      assert (a + b)[0] == a[0] && (a + b)[1..] == a[1..] + b;
      DueOnConcat(key, a[1..], b, k);
      if key(a[0].dueDate) == k {
        assert DueOn(key, a + b, k) == [a[0]] + DueOn(key, a[1..] + b, k);
        assert DueOn(key, a, k) == [a[0]] + DueOn(key, a[1..], k);
      }
    }
  }

  lemma {:induction false} InsertKeepsTies(key: DayKey, t: Task, s: seq<Task>, k: int)
    ensures DueOn(key, Insert(key, t, s), k) == (if key(t.dueDate) == k then [t] else []) + DueOn(key, s, k)
  {
    if s == [] || key(t.dueDate) <= key(s[0].dueDate) {
      assert ([t] + s)[1..] == s;
    } else {
      var rest := Insert(key, t, s[1..]);
      InsertKeepsTies(key, t, s[1..], k);
      assert ([s[0]] + rest)[1..] == rest;
    }
  }

  /** The sort is stable: tasks due on the same day keep their input order. */
  lemma {:induction false} SortKeepsTies(key: DayKey, tasks: seq<Task>, k: int)
    ensures DueOn(key, SortByDue(key, tasks), k) == DueOn(key, tasks, k)
  {
    if tasks != [] {
      SortKeepsTies(key, tasks[1..], k);
      InsertKeepsTies(key, tasks[0], SortByDue(key, tasks[1..]), k);
    }
  }

  /** Among the cards, tasks due on one day appear in the order they have in
      the store: they are the first few of the store's incomplete tasks due
      that day. */
  lemma UpcomingKeepsTies(key: DayKey, tasks: seq<Task>, k: int)
    ensures DueOn(key, Upcoming(key, tasks), k) <= DueOn(key, Incomplete(tasks), k)
  {
    var sorted := SortByDue(key, Incomplete(tasks));
    var n := if |sorted| < UpcomingLimit then |sorted| else UpcomingLimit;
    assert Upcoming(key, tasks) == sorted[..n];
    PrefixKeepsDueOn(key, sorted, n, k);
    SortKeepsTies(key, Incomplete(tasks), k);
  }

  lemma PrefixKeepsDueOn(key: DayKey, s: seq<Task>, n: int, k: int)
    requires 0 <= n <= |s|
    ensures DueOn(key, s[..n], k) <= DueOn(key, s, k)
  {
    assert s == s[..n] + s[n..];
    DueOnConcat(key, s[..n], s[n..], k);
  }
}
