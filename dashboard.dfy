/** The dashboard (`src/pages/Dashboard.tsx`): the five most recently created
    tasks, and the counts over them. */
module Dashboard {
  import opened Sorting
  import opened TaskTypes
  import opened MockApi
  import opened TaskStats

  /** How many tasks the dashboard keeps. */
  const RecentLimit: nat := 5

  /** `(a, b) => new Date(b.createdAt).getTime() - new Date(a.createdAt).getTime()`:
      the newest first. */
  function NewestFirst(timeOf: string -> int): (Task, Task) -> int {
    (a: Task, b: Task) => timeOf(b.createdAt) - timeOf(a.createdAt)
  }

  lemma NewestFirstValid(timeOf: string -> int)
    ensures ValidComparator(NewestFirst(timeOf))
  {
  }

  /** `s.slice(0, n)`. */
  function Take<T>(s: seq<T>, n: nat): (r: seq<T>)
    ensures |r| == if n < |s| then n else |s|
    ensures r == s[..|r|]
  {
    if n < |s| then s[..n] else s
  }

  /** The fetched tasks, sorted newest first, cut to five. */
  function Recent(ts: seq<Task>, timeOf: string -> int): (r: seq<Task>)
    ensures |r| <= RecentLimit && |r| <= |ts|
  {
    Take(InsertionSort(ts, NewestFirst(timeOf)), RecentLimit)
  }

  /** `loadRecentTasks`: fetch, sort the fetched array in place, keep the
      first five. */
  method LoadRecentTasks(store: TaskStore, timeOf: string -> int) returns (recent: seq<Task>)
    ensures recent == Recent(store.Tasks(), timeOf)
  {
    var tasks := store.GetTasks();
    var a := new Task[|tasks|](i requires 0 <= i < |tasks| => tasks[i]);
    assert a[..] == tasks;
    SortInPlace(a, NewestFirst(timeOf));
    recent := a[..if RecentLimit < a.Length then RecentLimit else a.Length];
  }

  /** There are min(5, n) recent tasks, each taken from the fetched ones, and
      their creation times do not increase along the list. */
  lemma RecentShape(ts: seq<Task>, timeOf: string -> int)
    ensures |Recent(ts, timeOf)| == if |ts| < 5 then |ts| else 5
    ensures multiset(Recent(ts, timeOf)) <= multiset(ts)
    ensures var r := Recent(ts, timeOf);
      forall i, j :: 0 <= i < j < |r| ==> timeOf(r[i].createdAt) >= timeOf(r[j].createdAt)
  {
    var s := InsertionSort(ts, NewestFirst(timeOf));
    var r := Recent(ts, timeOf);
    NewestFirstValid(timeOf);
    InsertionSortPermutes(ts, NewestFirst(timeOf));
    InsertionSortSorted(ts, NewestFirst(timeOf));
    assert s == r + s[|r|..];
  }

  /** Every fetched task that is left out was created no later than every task
      that is kept. */
  lemma RecentKeepsNewest(ts: seq<Task>, timeOf: string -> int)
    ensures var r := Recent(ts, timeOf);
      forall x, y :: x in multiset(ts) - multiset(r) && y in r ==> timeOf(x.createdAt) <= timeOf(y.createdAt)
  {
    var s := InsertionSort(ts, NewestFirst(timeOf));
    var r := Recent(ts, timeOf);
    NewestFirstValid(timeOf);
    InsertionSortPermutes(ts, NewestFirst(timeOf));
    InsertionSortSorted(ts, NewestFirst(timeOf));
    SortedSplit(s, |r|, timeOf);
    LeftOut(ts, s, |r|);
  }

  /** In a list sorted newest first, everything after position `k` was created
      no later than everything before it. */
  lemma SortedSplit(s: seq<Task>, k: nat, timeOf: string -> int)
    requires Sorted(s, NewestFirst(timeOf)) && k <= |s|
    ensures forall x, y :: x in s[k..] && y in s[..k] ==> timeOf(x.createdAt) <= timeOf(y.createdAt)
  {
    forall x, y | x in s[k..] && y in s[..k] ensures timeOf(x.createdAt) <= timeOf(y.createdAt) {
      var j :| 0 <= j < |s[k..]| && s[k..][j] == x;
      var i :| 0 <= i < k && s[..k][i] == y;
      assert s[i] == y && s[k + j] == x;
    }
  }

  /** What a prefix of a rearrangement of `ts` leaves out of `ts` is the rest of
      the rearrangement. */
  lemma LeftOut<T>(ts: seq<T>, s: seq<T>, k: nat)
    requires multiset(s) == multiset(ts) && k <= |s|
    ensures multiset(ts) - multiset(s[..k]) == multiset(s[k..])
  {
    assert s == s[..k] + s[k..];
  }

  /** The dashboard counts are over the recent tasks: their total is at most
      five, and the status counts add up to it. */
  lemma DashboardCounts(ts: seq<Task>, timeOf: string -> int)
    ensures var st := StatsOf(Recent(ts, timeOf));
      st.total == |Recent(ts, timeOf)| && st.total <= RecentLimit
      && st.pending + st.inProgress + st.completed == st.total
  {
    CountsSumToTotal(Recent(ts, timeOf));
  }
}
