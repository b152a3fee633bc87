/** The task list page (`src/pages/Tasks.tsx`): the status filter, the stable
    sort by one of three keys, and the search dispatch. */
module TasksPage {
  import opened Text
  import opened Seqs
  import opened Sorting
  import opened Wrappers
  import opened TaskTypes
  import opened MockApi

  /** `priorityOrder`: high before medium before low. The `|| 0` fallback of
      the source cannot be reached, since every priority has a rank. */
  function Rank(p: PriorityLevel): (r: int)
    ensures 1 <= r <= 3
    ensures r == 3 <==> p == High
    ensures r == 1 <==> p == Low
  {
    match p
    case High => 3
    case Medium => 2
    case Low => 1
  }

  /** The comparator handed to `sort` for each sort option: due date
      ascending, title by character order, or priority rank descending. Date
      parsing is `timeOf`. */
  function TaskCompare(sortBy: SortOption, timeOf: string -> int): (Task, Task) -> int {
    (a: Task, b: Task) =>
      match sortBy
      case ByDate => timeOf(a.dueDate) - timeOf(b.dueDate)
      case ByName => StrCompare(a.title, b.title)
      case ByPriority => Rank(b.priority) - Rank(a.priority)
  }

  /** Each of the three comparators is consistent, so `sort` is well defined. */
  lemma TaskCompareValid(sortBy: SortOption, timeOf: string -> int)
    ensures ValidComparator(TaskCompare(sortBy, timeOf))
  {
    var cmp := TaskCompare(sortBy, timeOf);
    if sortBy == ByName {
      forall a: Task ensures cmp(a, a) == 0 {
        StrCompareZeroIff(a.title, a.title);
      }
      forall a: Task, b: Task ensures cmp(a, b) < 0 <==> cmp(b, a) > 0 {
        StrCompareAntisymmetric(a.title, b.title);
      }
      forall a: Task, b: Task, c: Task | cmp(a, b) <= 0 && cmp(b, c) <= 0 ensures cmp(a, c) <= 0 {
        StrCompareTransitive(a.title, b.title, c.title);
      }
    }
  }

  /** The status filter: everything for `all`, otherwise the tasks with that
      status, in their order. */
  function ApplyFilter(ts: seq<Task>, filter: FilterOption): (r: seq<Task>)
    ensures |r| <= |ts|
  {
    match filter
    case All => ts
    case OnlyStatus(s) => Filter(ts, HasStatus(s))
  }

  /** The filter keeps, in order, exactly the tasks whose status matches; with
      `all` it keeps every task. */
  lemma ApplyFilterExactly(ts: seq<Task>, filter: FilterOption)
    ensures filter == All ==> ApplyFilter(ts, filter) == ts
    ensures IsSubsequence(ApplyFilter(ts, filter), ts)
    ensures forall t :: t in ApplyFilter(ts, filter) <==>
                        t in ts && (filter.OnlyStatus? ==> t.status == filter.status)
  {
    match filter
    case All =>
      ReflexiveSubsequence(ts);
    case OnlyStatus(s) =>
      FilterMembers(ts, HasStatus(s));
      FilterIsSubsequence(ts, HasStatus(s));
  }

  lemma {:induction false} ReflexiveSubsequence<T>(s: seq<T>)
    ensures IsSubsequence(s, s)
    decreases |s|
  {
    if s != [] {
      ReflexiveSubsequence(s[1..]);
    }
  }

  /** What the page lists for the given filter and sort option. */
  function Shown(ts: seq<Task>, filter: FilterOption, sortBy: SortOption, timeOf: string -> int): (r: seq<Task>)
    ensures |r| == |ApplyFilter(ts, filter)| && |r| <= |ts|
  {
    InsertionSort(ApplyFilter(ts, filter), TaskCompare(sortBy, timeOf))
  }

  /** `filterAndSortTasks`: copy the tasks, drop those the filter rejects,
      sort the copy in place. The page's own list is a value and is not
      touched. */
  method FilterAndSortTasks(tasks: seq<Task>, filter: FilterOption, sortBy: SortOption, timeOf: string -> int)
    returns (shown: seq<Task>)
    ensures shown == Shown(tasks, filter, sortBy, timeOf)
  {
    var filtered := tasks;
    if filter != All {
      filtered := Filter(filtered, HasStatus(filter.status));
    }
    var a := new Task[|filtered|](i requires 0 <= i < |filtered| => filtered[i]);
    assert a[..] == filtered;
    SortInPlace(a, TaskCompare(sortBy, timeOf));
    shown := a[..];
  }

  /** The list shown is a rearrangement of the filtered tasks that keeps
      equal-keyed tasks in their input order. */
  lemma ShownPermutesStably(ts: seq<Task>, filter: FilterOption, sortBy: SortOption, timeOf: string -> int)
    ensures multiset(Shown(ts, filter, sortBy, timeOf)) == multiset(ApplyFilter(ts, filter))
    ensures Stable(ApplyFilter(ts, filter), Shown(ts, filter, sortBy, timeOf), TaskCompare(sortBy, timeOf))
  {
    TaskCompareValid(sortBy, timeOf);
    InsertionSortPermutes(ApplyFilter(ts, filter), TaskCompare(sortBy, timeOf));
    InsertionSortStable(ApplyFilter(ts, filter), TaskCompare(sortBy, timeOf));
  }

  /** The list shown is ordered by the chosen key: due dates non-decreasing,
      titles non-decreasing, or priority ranks non-increasing. */
  lemma ShownSortedByKey(ts: seq<Task>, filter: FilterOption, sortBy: SortOption, timeOf: string -> int)
    ensures var r := Shown(ts, filter, sortBy, timeOf);
      sortBy == ByDate ==> forall i, j :: 0 <= i < j < |r| ==> timeOf(r[i].dueDate) <= timeOf(r[j].dueDate)
    ensures var r := Shown(ts, filter, sortBy, timeOf);
      sortBy == ByName ==> forall i, j :: 0 <= i < j < |r| ==> StrCompare(r[i].title, r[j].title) <= 0
    ensures var r := Shown(ts, filter, sortBy, timeOf);
      sortBy == ByPriority ==> forall i, j :: 0 <= i < j < |r| ==> Rank(r[i].priority) >= Rank(r[j].priority)
  {
    TaskCompareValid(sortBy, timeOf);
    InsertionSortSorted(ApplyFilter(ts, filter), TaskCompare(sortBy, timeOf));
  }

  /** Any sorted, stable rearrangement of the filtered tasks is the list the
      model shows: the model gives what every conforming engine gives. */
  lemma ShownIsTheStableSort(ts: seq<Task>, filter: FilterOption, sortBy: SortOption, timeOf: string -> int, r: seq<Task>)
    requires Sorted(r, TaskCompare(sortBy, timeOf))
    requires Stable(ApplyFilter(ts, filter), r, TaskCompare(sortBy, timeOf))
    ensures r == Shown(ts, filter, sortBy, timeOf)
  {
    TaskCompareValid(sortBy, timeOf);
    SortedStableIsInsertionSort(ApplyFilter(ts, filter), r, TaskCompare(sortBy, timeOf));
  }

  /** `loadTasks` followed by the effect that re-runs `filterAndSortTasks`:
      the page's list becomes the stored collection and the shown list is
      recomputed from it. */
  method LoadTasks(store: TaskStore, filter: FilterOption, sortBy: SortOption, timeOf: string -> int)
    returns (tasks: seq<Task>, shown: seq<Task>)
    ensures tasks == store.Tasks()
    ensures shown == Shown(store.Tasks(), filter, sortBy, timeOf)
  {
    tasks := store.GetTasks();
    shown := FilterAndSortTasks(tasks, filter, sortBy, timeOf);
  }

  /** `handleAddTask(data)`: create, reload, close the create form. */
  method HandleAddTask(store: TaskStore, data: TaskFormData, id: string, now: string,
                       filter: FilterOption, sortBy: SortOption, timeOf: string -> int)
    returns (tasks: seq<Task>, shown: seq<Task>, formOpen: bool)
    modifies store
    ensures store.Tasks() == old(store.Tasks()) + [NewTask(data, id, now)]
    ensures tasks == store.Tasks() && shown == Shown(tasks, filter, sortBy, timeOf)
    ensures !formOpen
  {
    var created := store.CreateTask(data, id, now);
    tasks, shown := LoadTasks(store, filter, sortBy, timeOf);
    formOpen := false;
  }

  /** `handleUpdateTask(id, updates)`: update; on success reload and close the
      edit form, on the "Task not found" error only log it, so the page's
      list, what it shows and the task being edited stay as they were. */
  method HandleUpdateTask(store: TaskStore, id: string, patch: TaskPatch, now: string,
                          pageTasks: seq<Task>, pageShown: seq<Task>, editing: Option<Task>,
                          filter: FilterOption, sortBy: SortOption, timeOf: string -> int)
    returns (tasks: seq<Task>, shown: seq<Task>, stillEditing: Option<Task>)
    modifies store
    ensures store.Tasks() == UpdateAll(old(store.Tasks()), id, patch, now)
    ensures HasId(old(store.Tasks()), id) ==>
      tasks == store.Tasks() && shown == Shown(tasks, filter, sortBy, timeOf) && stillEditing == None
    ensures !HasId(old(store.Tasks()), id) ==>
      store.Tasks() == old(store.Tasks()) && tasks == pageTasks && shown == pageShown && stillEditing == editing
  {
    var r := store.UpdateTask(id, patch, now);
    if r.Ok? {
      tasks, shown := LoadTasks(store, filter, sortBy, timeOf);
      stillEditing := None;
    } else {
      tasks, shown, stillEditing := pageTasks, pageShown, editing;
    }
  }

  /** `handleDeleteTask(id)`: delete, then reload. */
  method HandleDeleteTask(store: TaskStore, id: string,
                          filter: FilterOption, sortBy: SortOption, timeOf: string -> int)
    returns (tasks: seq<Task>, shown: seq<Task>)
    modifies store
    ensures store.Tasks() == WithoutId(old(store.Tasks()), id)
    ensures tasks == store.Tasks() && shown == Shown(tasks, filter, sortBy, timeOf)
  {
    store.DeleteTask(id);
    tasks, shown := LoadTasks(store, filter, sortBy, timeOf);
  }

  /** `handleSearch(query)`: a blank query shows the filtered, sorted page
      list again; any other query shows the store's search results as
      returned, without the status filter or the sort. */
  method HandleSearch(store: TaskStore, query: string, tasks: seq<Task>, filter: FilterOption,
                      sortBy: SortOption, timeOf: string -> int)
    returns (shown: seq<Task>)
    ensures IsBlank(query) ==> shown == Shown(tasks, filter, sortBy, timeOf)
    ensures !IsBlank(query) ==> shown == Search(store.Tasks(), query)
  {
    TrimEmptyIffBlank(query);
    if Trim(query) == [] {
      shown := FilterAndSortTasks(tasks, filter, sortBy, timeOf);
    } else {
      shown := store.SearchTasks(query);
    }
  }
}
