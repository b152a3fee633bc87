/** The task store of `src/services/mockAPI.ts`: one storage slot holding the
    whole collection, which every operation reads, recomputes and writes back.

    The slot's serialisation is taken to round-trip, so the slot holds the
    collection itself; the clock stamp and the generated id are parameters. */
module MockApi {
  import opened Wrappers
  import opened Text
  import opened Seqs
  import opened TaskTypes

  /** What reading the storage key can give: nothing stored, the empty string,
      or a serialised collection. */
  datatype Slot = Missing | EmptyText | Serialized(tasks: seq<Task>)

  /** `getStoredTasks`: a missing or empty slot reads as no tasks. */
  function ReadSlot(slot: Slot): (r: seq<Task>)
    ensures !slot.Serialized? ==> r == []
    ensures slot.Serialized? ==> r == slot.tasks
  {
    match slot
    case Serialized(ts) => ts
    case _ => []
  }

  /** The error `updateTask` raises. */
  const TaskNotFound: string := "Task not found"

  // ---------------------------------------------------------------------------
  // The record computations the operations perform
  // ---------------------------------------------------------------------------

  /** `{ ...taskData, id, createdAt: now }`: a task carrying every form field,
      the given id, `createdAt = now` and no `updatedAt`. */
  function NewTask(data: TaskFormData, id: string, now: string): (t: Task)
    ensures t.id == id && t.createdAt == now && t.updatedAt == None
    ensures t.title == data.title && t.description == Some(data.description)
    ensures t.dueDate == data.dueDate && t.status == data.status && t.priority == data.priority
  {
    Task(id, data.title, Some(data.description), data.dueDate, data.status, data.priority, now, None)
  }

  /** `{ ...task, ...updates, updatedAt: now }`: every field the patch names
      takes the patch's value, `updatedAt` becomes `now`, and `id` and
      `createdAt` are kept. */
  function MergeTask(t: Task, patch: TaskPatch, now: string): (r: Task)
    ensures r.id == t.id && r.createdAt == t.createdAt && r.updatedAt == Some(now)
    ensures r.title == patch.title.GetOr(t.title)
    ensures r.description == (if patch.description.Some? then patch.description else t.description)
    ensures r.dueDate == patch.dueDate.GetOr(t.dueDate)
    ensures r.status == patch.status.GetOr(t.status)
    ensures r.priority == patch.priority.GetOr(t.priority)
  {
    t.(title := patch.title.GetOr(t.title),
       description := if patch.description.Some? then patch.description else t.description,
       dueDate := patch.dueDate.GetOr(t.dueDate),
       status := patch.status.GetOr(t.status),
       priority := patch.priority.GetOr(t.priority),
       updatedAt := Some(now))
  }

  /** The patch that names no field. */
  const EmptyPatch: TaskPatch := TaskPatch(None, None, None, None, None)

  /** Merging a patch that names no field only stamps `updatedAt`. */
  lemma MergeEmptyPatch(t: Task, now: string)
    ensures MergeTask(t, EmptyPatch, now) == t.(updatedAt := Some(now))
  {
  }

  /** Merging the same patch twice is merging it once, stamped with the later
      time. */
  lemma MergeTwice(t: Task, patch: TaskPatch, now1: string, now2: string)
    ensures MergeTask(MergeTask(t, patch, now1), patch, now2) == MergeTask(t, patch, now2)
  {
  }

  /** `tasks.map(task => task.id === id ? merged : task)`. */
  function UpdateAll(ts: seq<Task>, id: string, patch: TaskPatch, now: string): (r: seq<Task>)
    ensures |r| == |ts|
    ensures forall i :: 0 <= i < |ts| && ts[i].id == id ==> r[i] == MergeTask(ts[i], patch, now)
    ensures forall i :: 0 <= i < |ts| && ts[i].id != id ==> r[i] == ts[i]
    decreases |ts|
  {
    if ts == [] then []
    else [if ts[0].id == id then MergeTask(ts[0], patch, now) else ts[0]] + UpdateAll(ts[1..], id, patch, now)
  }

  /** Some task in `ts` has this id. */
  predicate HasId(ts: seq<Task>, id: string) {
    exists i :: 0 <= i < |ts| && ts[i].id == id
  }

  /** `tasks.find(task => task.id === id)`: the first task with this id. */
  function FindById(ts: seq<Task>, id: string): (r: Option<Task>)
    ensures r.Some? ==> r.value.id == id
    decreases |ts|
  {
    if ts == [] then None
    else if ts[0].id == id then Some(ts[0])
    else FindById(ts[1..], id)
  }

  /** `find` fails exactly when no task has the id, and otherwise returns the
      task at the first index where the id occurs. */
  lemma {:induction false} FindByIdFirst(ts: seq<Task>, id: string)
    ensures FindById(ts, id).None? <==> !HasId(ts, id)
    ensures FindById(ts, id).Some? ==>
      exists i :: 0 <= i < |ts| && ts[i] == FindById(ts, id).value
                  && forall k :: 0 <= k < i ==> ts[k].id != id
    decreases |ts|
  {
    if ts != [] && ts[0].id != id {
      var tl := ts[1..];
      FindByIdFirst(tl, id);
      assert forall i :: 1 <= i < |ts| ==> ts[i] == tl[i - 1];
      if HasId(ts, id) {
        var i :| 0 <= i < |ts| && ts[i].id == id;
        assert tl[i - 1].id == id;
      }
      if HasId(tl, id) {
        var i :| 0 <= i < |tl| && tl[i].id == id;
        assert ts[i + 1].id == id;
      }
      var r := FindById(tl, id);
      if r.Some? {
        var i :| 0 <= i < |tl| && tl[i] == r.value && forall k :: 0 <= k < i ==> tl[k].id != id;
        assert ts[i + 1] == r.value;
        forall k | 0 <= k < i + 1 ensures ts[k].id != id {
          if k > 0 { assert ts[k] == tl[k - 1]; }
        }
      }
    }
  }

  /** What `updateTask` returns: the first updated record with the id, or
      the "Task not found" error. */
  function UpdateOutcome(ts: seq<Task>, id: string, patch: TaskPatch, now: string): (r: Result<Task, string>)
    ensures r.Ok? ==> r.value.id == id
    ensures r.Err? ==> r.error == TaskNotFound
  {
    match FindById(UpdateAll(ts, id, patch, now), id)
    case Some(t) => Ok(t)
    case None => Err(TaskNotFound)
  }

  /** Updating an id that is present returns the merge of the first record
      with that id. */
  lemma UpdatePresent(ts: seq<Task>, id: string, patch: TaskPatch, now: string)
    requires HasId(ts, id)
    ensures exists i :: 0 <= i < |ts| && ts[i].id == id
                        && (forall k :: 0 <= k < i ==> ts[k].id != id)
                        && UpdateOutcome(ts, id, patch, now) == Ok(MergeTask(ts[i], patch, now))
  {
    var i := FirstWithId(ts, id);
    UpdateFirst(ts, id, patch, now, i);
  }

  /** The first index at which the id occurs. */
  lemma {:induction false} FirstWithId(ts: seq<Task>, id: string) returns (i: nat)
    requires HasId(ts, id)
    ensures i < |ts| && ts[i].id == id && forall k :: 0 <= k < i ==> ts[k].id != id
    decreases |ts|
  {
    if ts[0].id == id {
      i := 0;
    } else {
      assert HasId(ts[1..], id) by {
        var j :| 0 <= j < |ts| && ts[j].id == id;
        assert ts[1..][j - 1].id == id;
      }
      var t := FirstWithId(ts[1..], id);
      i := t + 1;
      forall k | 0 <= k < i ensures ts[k].id != id {
        if k > 0 { assert ts[k] == ts[1..][k - 1]; }
      }
    }
  }

  /** When `i` is the first index with the id, `find` on the updated
      collection returns the merge of `ts[i]`. */
  lemma {:induction false} UpdateFirst(ts: seq<Task>, id: string, patch: TaskPatch, now: string, i: nat)
    requires i < |ts| && ts[i].id == id && forall k :: 0 <= k < i ==> ts[k].id != id
    ensures FindById(UpdateAll(ts, id, patch, now), id) == Some(MergeTask(ts[i], patch, now))
    decreases |ts|
  {
    var r := UpdateAll(ts, id, patch, now);
    if i > 0 {
      forall k | 0 <= k < i - 1 ensures ts[1..][k].id != id {
        assert ts[1..][k] == ts[k + 1];
      }
      UpdateFirst(ts[1..], id, patch, now, i - 1);
      assert r[1..] == UpdateAll(ts[1..], id, patch, now);
    }
  }

  /** Updating an id that is absent is the "Task not found" error, and the
      collection written back equals the one read. */
  lemma UpdateAbsent(ts: seq<Task>, id: string, patch: TaskPatch, now: string)
    requires !HasId(ts, id)
    ensures UpdateAll(ts, id, patch, now) == ts
    ensures UpdateOutcome(ts, id, patch, now) == Err(TaskNotFound)
  {
    var r := UpdateAll(ts, id, patch, now);
    assert r == ts;
    FindByIdFirst(ts, id);
  }

  /** `tasks.filter(task => task.id !== id)`. */
  function WithoutId(ts: seq<Task>, id: string): (r: seq<Task>)
    ensures |r| <= |ts|
  {
    Filter(ts, IdIsNot(id))
  }

  function IdIsNot(id: string): Task -> bool {
    (t: Task) => t.id != id
  }

  /** Deleting removes every record with the id and keeps every other record,
      in order. */
  lemma DeleteRemovesExactly(ts: seq<Task>, id: string)
    ensures !HasId(WithoutId(ts, id), id)
    ensures forall t :: t in ts && t.id != id ==> t in WithoutId(ts, id)
    ensures IsSubsequence(WithoutId(ts, id), ts)
  {
    FilterMembers(ts, IdIsNot(id));
    FilterIsSubsequence(ts, IdIsNot(id));
    var r := WithoutId(ts, id);
    forall i | 0 <= i < |r| ensures r[i].id != id {
      assert r[i] in r;
    }
  }

  /** Deleting keeps every copy of each record with another id, and no copy of
      a record with the id. */
  lemma DeleteKeepsCopies(ts: seq<Task>, id: string)
    ensures forall t :: multiset(WithoutId(ts, id))[t] == if t.id != id then multiset(ts)[t] else 0
  {
    forall t ensures multiset(WithoutId(ts, id))[t] == if t.id != id then multiset(ts)[t] else 0 {
      FilterCount(ts, IdIsNot(id), t);
    }
  }

  /** Deleting an absent id changes nothing. */
  lemma DeleteAbsent(ts: seq<Task>, id: string)
    requires !HasId(ts, id)
    ensures WithoutId(ts, id) == ts
  {
    forall t | t in ts ensures IdIsNot(id)(t) {
      var i :| 0 <= i < |ts| && ts[i] == t;
    }
    FilterAll(ts, IdIsNot(id));
  }

  /** Deleting twice is deleting once. */
  lemma DeleteIdempotent(ts: seq<Task>, id: string)
    ensures WithoutId(WithoutId(ts, id), id) == WithoutId(ts, id)
  {
    FilterIdempotent(ts, IdIsNot(id));
  }

  /** The search rule of `searchTasks` for a non-blank query: the lowercased
      title contains the lowercased query, or there is a non-empty description
      whose lowercased text contains it. */
  predicate Matches(t: Task, query: string) {
    Includes(Lower(t.title), Lower(query))
    || (t.description.Some? && t.description.value != [] && Includes(Lower(t.description.value), Lower(query)))
  }

  function MatchesQuery(query: string): Task -> bool {
    (t: Task) => Matches(t, query)
  }

  /** `searchTasks(query)` on a collection: all of it for a blank query,
      otherwise the tasks that match, in their order. */
  function Search(ts: seq<Task>, query: string): (r: seq<Task>)
    ensures |r| <= |ts|
  {
    if Trim(query) == [] then ts
    else Filter(ts, MatchesQuery(query))
  }

  /** An empty or whitespace-only query returns the whole collection. */
  lemma SearchBlank(ts: seq<Task>, query: string)
    requires IsBlank(query)
    ensures Search(ts, query) == ts
  {
    TrimEmptyIffBlank(query);
  }

  /** Any other query returns, as an order-preserving subsequence, exactly
      the tasks whose title or description contains the query at some
      position, ignoring case. */
  lemma SearchExactly(ts: seq<Task>, query: string)
    requires !IsBlank(query)
    ensures IsSubsequence(Search(ts, query), ts)
    ensures forall t :: t in Search(ts, query) <==>
      t in ts && ((exists i :: OccursAt(Lower(t.title), Lower(query), i))
                  || (t.description.Some? && exists i :: OccursAt(Lower(t.description.value), Lower(query), i)))
  {
    TrimEmptyIffBlank(query);
    assert |Lower(query)| > 0;
    FilterMembers(ts, MatchesQuery(query));
    FilterIsSubsequence(ts, MatchesQuery(query));
    forall t: Task ensures Matches(t, query) <==>
      ((exists i :: OccursAt(Lower(t.title), Lower(query), i))
       || (t.description.Some? && exists i :: OccursAt(Lower(t.description.value), Lower(query), i)))
    {
      IncludesIff(Lower(t.title), Lower(query));
      if t.description.Some? {
        IncludesIff(Lower(t.description.value), Lower(query));
      }
    }
  }

  /** A search keeps every copy of each matching task, and no copy of any
      other. */
  lemma SearchKeepsCopies(ts: seq<Task>, query: string)
    requires !IsBlank(query)
    ensures forall t :: multiset(Search(ts, query))[t] == if Matches(t, query) then multiset(ts)[t] else 0
  {
    TrimEmptyIffBlank(query);
    forall t ensures multiset(Search(ts, query))[t] == if Matches(t, query) then multiset(ts)[t] else 0 {
      FilterCount(ts, MatchesQuery(query), t);
    }
  }

  /** Ids are pairwise distinct. The store never checks this; it holds as long
      as every created task gets an id not already used. */
  predicate UniqueIds(ts: seq<Task>) {
    forall i, j :: 0 <= i < j < |ts| ==> ts[i].id != ts[j].id
  }

  /** Creating with an unused id keeps ids distinct. */
  lemma CreateKeepsIdsUnique(ts: seq<Task>, data: TaskFormData, id: string, now: string)
    requires UniqueIds(ts) && !HasId(ts, id)
    ensures UniqueIds(ts + [NewTask(data, id, now)])
  {
    var r := ts + [NewTask(data, id, now)];
    forall i, j | 0 <= i < j < |r| ensures r[i].id != r[j].id {
      if j == |ts| {
        assert r[i] == ts[i];
      }
    }
  }

  /** Updating and deleting keep ids distinct. */
  lemma UpdateDeleteKeepIdsUnique(ts: seq<Task>, id: string, patch: TaskPatch, now: string, gone: string)
    requires UniqueIds(ts)
    ensures UniqueIds(UpdateAll(ts, id, patch, now))
    ensures UniqueIds(WithoutId(ts, gone))
  {
    var r := UpdateAll(ts, id, patch, now);
    assert forall i :: 0 <= i < |ts| ==> r[i].id == ts[i].id;
    FilterIsSubsequence(ts, IdIsNot(gone));
    SubsequenceUniqueIds(WithoutId(ts, gone), ts);
  }

  /** With distinct ids, the record `updateTask` returns is the merge of the one
      record that had the id. */
  lemma UpdateUnique(ts: seq<Task>, k: nat, patch: TaskPatch, now: string)
    requires UniqueIds(ts) && k < |ts|
    ensures UpdateOutcome(ts, ts[k].id, patch, now) == Ok(MergeTask(ts[k], patch, now))
  {
    UpdatePresent(ts, ts[k].id, patch, now);
  }

  lemma {:induction false} SubsequenceUniqueIds(r: seq<Task>, s: seq<Task>)
    requires UniqueIds(s) && IsSubsequence(r, s)
    ensures UniqueIds(r)
    decreases |s|
  {
    if r != [] && s != [] {
      if r[0] == s[0] {
        SubsequenceUniqueIds(r[1..], s[1..]);
        SubsequenceMembers(r[1..], s[1..]);
        forall j | 0 < j < |r| ensures r[0].id != r[j].id {
          assert r[j] == r[1..][j - 1];
          assert r[j] in r[1..];
          var k :| 0 <= k < |s[1..]| && s[1..][k] == r[j];
          assert s[k + 1] == r[j];
        }
        forall i, j | 0 <= i < j < |r| ensures r[i].id != r[j].id {
          if i > 0 {
            assert r[i] == r[1..][i - 1] && r[j] == r[1..][j - 1];
          }
        }
      } else {
        SubsequenceUniqueIds(r, s[1..]);
      }
    }
  }

  /** Every element of a subsequence is an element of the sequence. */
  lemma {:induction false} SubsequenceMembers<T>(r: seq<T>, s: seq<T>)
    requires IsSubsequence(r, s)
    ensures forall x :: x in r ==> x in s
    decreases |s|
  {
    if r != [] && s != [] {
      if r[0] == s[0] {
        SubsequenceMembers(r[1..], s[1..]);
        assert r == [r[0]] + r[1..];
      } else {
        SubsequenceMembers(r, s[1..]);
      }
    }
  }

  // ---------------------------------------------------------------------------
  // The store
  // ---------------------------------------------------------------------------

  /** `mockAPI` over its one storage slot. */
  class TaskStore {
    var slot: Slot

    /** A store over whatever the slot holds at start. */
    constructor (initial: Slot)
      ensures slot == initial
    {
      slot := initial;
    }

    /** The collection as `getStoredTasks` reads it. */
    function Tasks(): (ts: seq<Task>)
      reads this
      ensures !slot.Serialized? ==> ts == []
    {
      ReadSlot(slot)
    }

    /** `getTasks`: the stored collection. */
    method GetTasks() returns (ts: seq<Task>)
      ensures ts == ReadSlot(slot)
      ensures !slot.Serialized? ==> ts == []
    {
      ts := ReadSlot(slot);
    }

    /** `createTask(taskData)`: appends one new task at the end and returns it. */
    method CreateTask(data: TaskFormData, id: string, now: string) returns (t: Task)
      modifies this
      ensures t == NewTask(data, id, now)
      ensures slot == Serialized(old(Tasks()) + [t])
      ensures |Tasks()| == |old(Tasks())| + 1 && Tasks()[..|old(Tasks())|] == old(Tasks())
    {
      var ts := ReadSlot(slot);
      t := NewTask(data, id, now);
      slot := Serialized(ts + [t]);
      assert (ts + [t])[..|ts|] == ts;
    }

    /** `updateTask(id, updates)`: merges the patch into every record with the
        id and writes the collection back, whether or not the id was found;
        then returns the first updated record, or the "Task not found" error. */
    method UpdateTask(id: string, patch: TaskPatch, now: string) returns (r: Result<Task, string>)
      modifies this
      ensures slot == Serialized(UpdateAll(old(Tasks()), id, patch, now))
      ensures r == UpdateOutcome(old(Tasks()), id, patch, now)
      ensures r.Err? <==> !HasId(old(Tasks()), id)
      ensures r.Err? ==> r.error == TaskNotFound && Tasks() == old(Tasks())
    {
      var ts := ReadSlot(slot);
      var updated := UpdateAll(ts, id, patch, now);
      slot := Serialized(updated);
      var found := FindById(updated, id);
      if found.Some? {
        r := Ok(found.value);
      } else {
        r := Err(TaskNotFound);
      }
      if HasId(ts, id) {
        UpdatePresent(ts, id, patch, now);
      } else {
        UpdateAbsent(ts, id, patch, now);
      }
    }

    /** `deleteTask(id)`: keeps the records with any other id. */
    method DeleteTask(id: string)
      modifies this
      ensures slot == Serialized(WithoutId(old(Tasks()), id))
    {
      var ts := ReadSlot(slot);
      slot := Serialized(WithoutId(ts, id));
    }

    /** `searchTasks(query)`: reads the collection and does not change it. */
    method SearchTasks(query: string) returns (found: seq<Task>)
      ensures found == Search(ReadSlot(slot), query)
      ensures IsBlank(query) ==> found == ReadSlot(slot)
    {
      var ts := ReadSlot(slot);
      if Trim(query) == [] {
        found := ts;
      } else {
        found := Filter(ts, MatchesQuery(query));
      }
      if IsBlank(query) {
        SearchBlank(ts, query);
      }
    }

    /** `clearAllTasks`: writes the empty collection. */
    method ClearAllTasks()
      modifies this
      ensures slot == Serialized([]) && Tasks() == []
    {
      slot := Serialized([]);
    }
  }
}
