/** The reports page (`src/pages/Reports.tsx`): the same counts and completion
    rate as the analytics panel, with a bar for every priority and every
    status. */
module Reports {
  import opened TaskTypes
  import opened TaskStats

  /** The three status bars of the status overview. */
  datatype StatusBars = StatusBars(completed: JsNumber, inProgress: JsNumber, pending: JsNumber)

  function StatusBarsOf(st: Stats): StatusBars {
    StatusBars(BarWidth(st.completed, st.total), BarWidth(st.inProgress, st.total),
               BarWidth(st.pending, st.total))
  }

  /** The six bars of the page: finite widths in [0, 100], all 0 when there are
      no tasks; otherwise the status bars and the priority bars each add up to
      100. */
  lemma ReportBarsSum(ts: seq<Task>)
    ensures var s := StatusBarsOf(StatsOf(ts));
      s.completed.Finite? && s.inProgress.Finite? && s.pending.Finite?
      && 0.0 <= s.completed.value <= 100.0 && 0.0 <= s.inProgress.value <= 100.0
      && 0.0 <= s.pending.value <= 100.0
      && (ts == [] ==> s.completed.value == s.inProgress.value == s.pending.value == 0.0)
      && (ts != [] ==> s.completed.value + s.inProgress.value + s.pending.value == 100.0)
    ensures var p := PriorityBarsOf(StatsOf(ts));
      p.high.Finite? && p.medium.Finite? && p.low.Finite?
      && 0.0 <= p.high.value <= 100.0 && 0.0 <= p.medium.value <= 100.0 && 0.0 <= p.low.value <= 100.0
      && (ts == [] ==> p.high.value == p.medium.value == p.low.value == 0.0)
      && (ts != [] ==> p.high.value + p.medium.value + p.low.value == 100.0)
  {
    var st := StatsOf(ts);
    CountsSumToTotal(ts);
    BarWidthBounds(st.completed, st.total);
    BarWidthBounds(st.inProgress, st.total);
    BarWidthBounds(st.pending, st.total);
    if ts != [] {
      SharesSum(st.completed as real, st.inProgress as real, st.pending as real, st.total as real);
    }
    PriorityBarsSum(ts);
  }

  /** The completed bar shows the completion rate: both are
      `completed / total * 100`, and both are 0 for no tasks. */
  lemma CompletedBarIsRate(ts: seq<Task>)
    ensures StatusBarsOf(StatsOf(ts)).completed == Finite(CompletionRate(ts))
  {
    BarWidthBounds(CountStatus(ts, Done), |ts|);
  }
}
