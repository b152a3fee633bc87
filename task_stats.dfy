/** The counts, completion rate, distribution bars and overdue figure of
    `src/components/tasks/TaskStats.tsx`, which `src/pages/Reports.tsx` and
    `src/pages/Dashboard.tsx` compute in the same way. */
module TaskStats {
  import opened Wrappers
  import opened Seqs
  import opened TaskTypes
  import opened TaskItem

  /** The `stats` object: the number of tasks, and how many have each status
      and each priority. */
  datatype Stats = Stats(
    total: nat,
    completed: nat,
    inProgress: nat,
    pending: nat,
    highPriority: nat,
    mediumPriority: nat,
    lowPriority: nat)

  /** `tasks.filter(t => t.status === s).length`. */
  function CountStatus(ts: seq<Task>, s: TaskStatus): (n: nat)
    ensures n <= |ts|
  {
    |Filter(ts, HasStatus(s))|
  }

  /** `tasks.filter(t => t.priority === p).length`. */
  function CountPriority(ts: seq<Task>, p: PriorityLevel): (n: nat)
    ensures n <= |ts|
  {
    |Filter(ts, HasPriority(p))|
  }

  function StatsOf(ts: seq<Task>): Stats {
    Stats(|ts|, CountStatus(ts, Done), CountStatus(ts, InProgress), CountStatus(ts, Pending),
          CountPriority(ts, High), CountPriority(ts, Medium), CountPriority(ts, Low))
  }

  /** Every task has exactly one status and one priority, so the status
      counts and the priority counts each add up to the total. */
  lemma {:induction false} CountsSumToTotal(ts: seq<Task>)
    ensures var st := StatsOf(ts);
      st.pending + st.inProgress + st.completed == st.total
      && st.highPriority + st.mediumPriority + st.lowPriority == st.total
    decreases |ts|
  {
    if ts != [] {
      CountsSumToTotal(ts[1..]);
    }
  }

  /** A count reaches the total exactly when every task is in that bucket, and
      is zero exactly when none is. */
  lemma CountExtremes(ts: seq<Task>, s: TaskStatus)
    ensures CountStatus(ts, s) == |ts| <==> forall i :: 0 <= i < |ts| ==> ts[i].status == s
    ensures CountStatus(ts, s) == 0 <==> forall i :: 0 <= i < |ts| ==> ts[i].status != s
  {
    FilterKeepsAllIff(ts, HasStatus(s));
    FilterKeepsNoneIff(ts, HasStatus(s));
  }

  /** Reordering the tasks changes no count. */
  lemma StatsPermutationInvariant(ts: seq<Task>, us: seq<Task>)
    requires multiset(ts) == multiset(us)
    ensures StatsOf(ts) == StatsOf(us)
  {
    assert |ts| == |multiset(ts)| && |us| == |multiset(us)|;
    forall s: TaskStatus ensures CountStatus(ts, s) == CountStatus(us, s) {
      FilterPermutationLength(ts, us, HasStatus(s));
    }
    forall p: PriorityLevel ensures CountPriority(ts, p) == CountPriority(us, p) {
      FilterPermutationLength(ts, us, HasPriority(p));
    }
  }

  /** `tasks.length > 0 ? (stats.completed / tasks.length) * 100 : 0`, over
      the reals. */
  function CompletionRate(ts: seq<Task>): real {
    if |ts| > 0 then (CountStatus(ts, Done) as real / |ts| as real) * 100.0 else 0.0
  }

  /** The rate lies in [0, 100]; it is 0 for no tasks or no done task, and 100
      exactly when there are tasks and all are done. */
  lemma CompletionRateBounds(ts: seq<Task>)
    ensures 0.0 <= CompletionRate(ts) <= 100.0
    ensures ts == [] ==> CompletionRate(ts) == 0.0
    ensures CompletionRate(ts) == 0.0 <==> CountStatus(ts, Done) == 0
    ensures CompletionRate(ts) == 100.0 <==> ts != [] && forall i :: 0 <= i < |ts| ==> ts[i].status == Done
  {
    CountExtremes(ts, Done);
    if |ts| > 0 {
      var c, n := CountStatus(ts, Done) as real, |ts| as real;
      RatioBounds(c, n);
    }
  }

  lemma RatioBounds(c: real, n: real)
    requires 0.0 <= c <= n && n > 0.0
    ensures 0.0 <= (c / n) * 100.0 <= 100.0
    ensures (c / n) * 100.0 == 0.0 <==> c == 0.0
    ensures (c / n) * 100.0 == 100.0 <==> c == n
  {
    assert c / n <= 1.0;
  }

  // ---------------------------------------------------------------------------
  // The bars: `(count / total) * 100 || 0` in JavaScript numbers
  // ---------------------------------------------------------------------------

  /** The JavaScript numbers the bar widths can take: the quotients of
      non-negative counts are finite, `NaN` (0/0) or `Infinity` (n/0). */
  datatype JsNumber = Finite(value: real) | NaN | Infinity

  /** `a / b` for non-negative `a` and `b`. */
  function JsDivide(a: real, b: real): (r: JsNumber)
    requires a >= 0.0 && b >= 0.0
    ensures b > 0.0 ==> r == Finite(a / b)
    ensures b == 0.0 ==> (r == NaN <==> a == 0.0) && (r == Infinity <==> a > 0.0)
  {
    if b > 0.0 then Finite(a / b) else if a == 0.0 then NaN else Infinity
  }

  /** `n * k` for a positive constant `k`. */
  function JsTimes(n: JsNumber, k: real): (r: JsNumber)
    requires k > 0.0
    ensures r.Finite? <==> n.Finite?
    ensures !n.Finite? ==> r == n
  {
    match n
    case Finite(v) => Finite(v * k)
    case _ => n
  }

  /** `n || 0`: the falsy numbers, `0` and `NaN`, become `0`. */
  function OrZero(n: JsNumber): (r: JsNumber)
    ensures n.NaN? ==> r == Finite(0.0)
    ensures !n.NaN? ==> r == n
  {
    if n.NaN? then Finite(0.0) else n
  }

  /** One bar's width in percent. */
  function BarWidth(count: nat, total: nat): JsNumber {
    OrZero(JsTimes(JsDivide(count as real, total as real), 100.0))
  }

  /** A bar over a count that is at most the total is a finite width in
      [0, 100]: `count / total * 100` when there are tasks, and 0 when there
      are none, because the `NaN` of 0/0 becomes 0. */
  lemma BarWidthBounds(count: nat, total: nat)
    requires count <= total
    ensures BarWidth(count, total).Finite?
    ensures 0.0 <= BarWidth(count, total).value <= 100.0
    ensures total == 0 ==> BarWidth(count, total) == Finite(0.0)
    ensures total > 0 ==> BarWidth(count, total).value == (count as real / total as real) * 100.0
  {
    if total > 0 {
      RatioBounds(count as real, total as real);
    }
  }

  /** Without the `|| 0` guard an empty list would give a `NaN` width. */
  lemma UnguardedBarIsNaN()
    ensures JsTimes(JsDivide(0.0, 0.0), 100.0) == NaN
    ensures BarWidth(0, 0) == Finite(0.0)
  {
  }

  /** The three priority bars of the distribution panel. */
  datatype PriorityBars = PriorityBars(high: JsNumber, medium: JsNumber, low: JsNumber)

  function PriorityBarsOf(st: Stats): PriorityBars {
    PriorityBars(BarWidth(st.highPriority, st.total), BarWidth(st.mediumPriority, st.total),
                 BarWidth(st.lowPriority, st.total))
  }

  /** For any list: the priority bars are finite widths in [0, 100] that are
      all 0 for no tasks and add up to 100 otherwise. */
  lemma PriorityBarsSum(ts: seq<Task>)
    ensures var b := PriorityBarsOf(StatsOf(ts));
      b.high.Finite? && b.medium.Finite? && b.low.Finite?
      && 0.0 <= b.high.value <= 100.0 && 0.0 <= b.medium.value <= 100.0 && 0.0 <= b.low.value <= 100.0
      && (ts == [] ==> b.high.value == b.medium.value == b.low.value == 0.0)
      && (ts != [] ==> b.high.value + b.medium.value + b.low.value == 100.0)
  {
    var st := StatsOf(ts);
    CountsSumToTotal(ts);
    BarWidthBounds(st.highPriority, st.total);
    BarWidthBounds(st.mediumPriority, st.total);
    BarWidthBounds(st.lowPriority, st.total);
    if ts != [] {
      SharesSum(st.highPriority as real, st.mediumPriority as real, st.lowPriority as real, st.total as real);
    }
  }

  /** Three shares of a positive whole that add up to it add up to 100 percent. */
  lemma SharesSum(a: real, b: real, c: real, n: real)
    requires n > 0.0 && a + b + c == n
    ensures (a / n) * 100.0 + (b / n) * 100.0 + (c / n) * 100.0 == 100.0
  {
    assert (a / n) + (b / n) + (c / n) == (a + b + c) / n;
  }

  // ---------------------------------------------------------------------------
  // Overdue tasks
  // ---------------------------------------------------------------------------

  function OverdueAt(now: int, timeOf: string -> int): Task -> bool {
    (t: Task) => IsOverdue(t, now, timeOf)
  }

  /** `tasks.filter(task => new Date(task.dueDate) < new Date() && task.status
      !== 'done').length`: the same test the rows use to mark a task. */
  function OverdueCount(ts: seq<Task>, now: int, timeOf: string -> int): (n: nat)
    ensures n <= |ts|
  {
    |Filter(ts, OverdueAt(now, timeOf))|
  }

  /** The overdue count is at most the number of tasks that are not done, and
      so at most the total; done tasks never add to it. */
  lemma OverdueCountBounds(ts: seq<Task>, now: int, timeOf: string -> int)
    ensures OverdueCount(ts, now, timeOf) <= StatsOf(ts).pending + StatsOf(ts).inProgress
    ensures OverdueCount(ts, now, timeOf) <= |ts|
    ensures (forall i :: 0 <= i < |ts| ==> ts[i].status == Done) ==> OverdueCount(ts, now, timeOf) == 0
  {
    var notDone := (t: Task) => t.status != Done;
    FilterMonotone(ts, OverdueAt(now, timeOf), notDone);
    FilterSplitsLength(ts, HasStatus(Done), notDone);
    CountsSumToTotal(ts);
    FilterKeepsNoneIff(ts, OverdueAt(now, timeOf));
  }

  /** The overdue count is exactly the number of tasks that are not done and
      whose due date has passed, in any order of the list. */
  lemma OverdueCountMeaning(ts: seq<Task>, us: seq<Task>, now: int, timeOf: string -> int)
    requires multiset(ts) == multiset(us)
    ensures OverdueCount(ts, now, timeOf) == OverdueCount(us, now, timeOf)
    ensures forall t :: t in Filter(ts, OverdueAt(now, timeOf)) <==>
                        t in ts && timeOf(t.dueDate) < now && t.status != Done
  {
    FilterPermutationLength(ts, us, OverdueAt(now, timeOf));
    FilterMembers(ts, OverdueAt(now, timeOf));
  }

  /** The overdue panel: present only when the list is non-empty, and then
      showing the overdue count. */
  function OverduePanel(ts: seq<Task>, now: int, timeOf: string -> int): (r: Option<nat>)
    ensures r.Some? <==> |ts| > 0
    ensures r.Some? ==> r.value == OverdueCount(ts, now, timeOf)
  {
    if |ts| > 0 then Some(OverdueCount(ts, now, timeOf)) else None
  }
}
