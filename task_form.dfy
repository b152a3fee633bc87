/** The create/edit form (`src/components/tasks/TaskFormModal.tsx`) and what
    the task page does with a submitted form (`src/pages/Tasks.tsx`). */
module TaskFormModal {
  import opened Wrappers
  import opened Text
  import opened TaskTypes
  import opened MockApi

  /** The form a new task starts from; `today` is the current date as
      `yyyy-MM-dd`. */
  function DefaultForm(today: string): (f: TaskFormData)
    ensures f.title == [] && f.description == []
    ensures f.status == Pending && f.priority == Medium && f.dueDate == today
  {
    TaskFormData("", "", today, Pending, Medium)
  }

  /** `dueDate.split('T')[0]`: the date part of a stored date. */
  function DatePart(dueDate: string): (d: string)
    ensures 'T' !in d
    ensures |d| <= |dueDate| && d == dueDate[..|d|]
  {
    FirstPieceIsPrefix(dueDate, 'T');
    SplitOn(dueDate, 'T')[0]
  }

  /** A date without a time part is kept whole. */
  lemma DatePartWithoutT(dueDate: string)
    requires 'T' !in dueDate
    ensures DatePart(dueDate) == dueDate
  {
    SplitWithoutSeparator(dueDate, 'T');
  }

  /** The date part is everything before the first `T`. */
  lemma DatePartBeforeT(date: string, time: string)
    requires 'T' !in date
    ensures DatePart(date + "T" + time) == date
  {
    SplitAtSeparator(date, 'T', time);
    SplitWithoutSeparator(date, 'T');
  }

  /** The form prefilled from a task being edited: title, status and priority
      copied, a missing description as the empty string, the date part of the
      due date. */
  function FormFromTask(t: Task): (f: TaskFormData)
    ensures f.title == t.title && f.status == t.status && f.priority == t.priority
    ensures f.description == t.description.GetOr("")
    ensures f.dueDate == DatePart(t.dueDate)
  {
    TaskFormData(t.title, t.description.GetOr(""), DatePart(t.dueDate), t.status, t.priority)
  }

  /** The fields with a `name` attribute. */
  datatype FieldName = TitleField | DescriptionField | DueDateField | StatusField

  /** The text a field holds, as the input element shows it. */
  function FieldValue(f: TaskFormData, name: FieldName): string {
    match name
    case TitleField => f.title
    case DescriptionField => f.description
    case DueDateField => f.dueDate
    case StatusField => StatusText(f.status)
  }

  /** What the input element can report as its value: any text for the text
      inputs, one of the option values for the status select. */
  predicate Reportable(name: FieldName, value: string) {
    name == StatusField ==> ParseStatus(value).Some?
  }

  /** `handleChange`: `{ ...prev, [name]: value }`. */
  function HandleChange(f: TaskFormData, name: FieldName, value: string): (r: TaskFormData)
    requires Reportable(name, value)
    ensures r.priority == f.priority
  {
    match name
    case TitleField => f.(title := value)
    case DescriptionField => f.(description := value)
    case DueDateField => f.(dueDate := value)
    case StatusField => f.(status := ParseStatus(value).value)
  }

  /** A change sets the named field to the reported value and leaves every
      other field, and the priority, as it was. */
  lemma HandleChangeOnlyNamed(f: TaskFormData, name: FieldName, value: string, other: FieldName)
    requires Reportable(name, value)
    ensures FieldValue(HandleChange(f, name, value), name) == value
    ensures other != name ==> FieldValue(HandleChange(f, name, value), other) == FieldValue(f, other)
  {
    if name == StatusField {
      var s := ParseStatus(value).value;
      StatusTextRoundTrip(s, value);
    }
  }

  /** Reporting the value a field already holds changes nothing, and of two
      changes to the same field only the later one counts. */
  lemma HandleChangeLaws(f: TaskFormData, name: FieldName, v1: string, v2: string)
    requires Reportable(name, v1) && Reportable(name, v2)
    ensures Reportable(name, FieldValue(f, name))
    ensures HandleChange(f, name, FieldValue(f, name)) == f
    ensures HandleChange(HandleChange(f, name, v1), name, v2) == HandleChange(f, name, v2)
  {
    StatusTextRoundTrip(f.status, StatusText(f.status));
  }

  /** A priority button press: `{ ...prev, priority: level }`. */
  function PickPriority(f: TaskFormData, level: PriorityLevel): (r: TaskFormData)
    ensures r.priority == level
    ensures forall name :: FieldValue(r, name) == FieldValue(f, name)
  {
    f.(priority := level)
  }

  /** The buttons are offered in the order low, medium, high, and exactly the
      button of the form's priority is highlighted. */
  const PriorityButtons: seq<PriorityLevel> := [Low, Medium, High]

  predicate Highlighted(f: TaskFormData, level: PriorityLevel) {
    f.priority == level
  }

  lemma OneButtonHighlighted(f: TaskFormData)
    ensures exists k :: 0 <= k < |PriorityButtons| && Highlighted(f, PriorityButtons[k])
    ensures forall i, j :: 0 <= i < j < |PriorityButtons| ==>
      !(Highlighted(f, PriorityButtons[i]) && Highlighted(f, PriorityButtons[j]))
  {
    match f.priority
    case Low => assert Highlighted(f, PriorityButtons[0]);
    case Medium => assert Highlighted(f, PriorityButtons[1]);
    case High => assert Highlighted(f, PriorityButtons[2]);
  }

  /** What the page does with a submitted form: create when the form was
      opened for a new task, update the edited task otherwise. */
  datatype Submission = CreateWith(data: TaskFormData) | UpdateWith(id: string, patch: TaskPatch)

  /** Every field of a form, as a patch: what `updateTask` receives when an
      edit is submitted. */
  function FormAsPatch(f: TaskFormData): (p: TaskPatch)
    ensures p.title == Some(f.title) && p.description == Some(f.description)
    ensures p.dueDate == Some(f.dueDate) && p.status == Some(f.status) && p.priority == Some(f.priority)
  {
    TaskPatch(Some(f.title), Some(f.description), Some(f.dueDate), Some(f.status), Some(f.priority))
  }

  /** The browser's check before a submit event reaches `handleSubmit`: the
      title and the due date are `required`, and the due date may not lie
      before `min`, today's date. Both dates are `yyyy-MM-dd`, whose character
      order is the calendar order. */
  predicate Submittable(f: TaskFormData, today: string) {
    f.title != [] && f.dueDate != [] && StrCompare(f.dueDate, today) >= 0
  }

  /** `handleSubmit` followed by the page's `onSubmit`: nothing when the
      browser blocks the submit, otherwise the form data passed on unchanged,
      to create a task or to update the edited one. */
  function Submit(editing: Option<Task>, f: TaskFormData, today: string): (s: Option<Submission>)
    ensures s.None? <==> !Submittable(f, today)
    ensures s.Some? && editing.None? ==> s.value == CreateWith(f)
    ensures s.Some? && editing.Some? ==> s.value == UpdateWith(editing.value.id, FormAsPatch(f))
  {
    if !Submittable(f, today) then None
    else match editing
      case None => Some(CreateWith(f))
      case Some(t) => Some(UpdateWith(t.id, FormAsPatch(f)))
  }

  /** An untouched new form cannot be submitted, since its title is empty;
      once a title is typed it creates a pending, medium-priority task due
      today with an empty description. */
  lemma CreateFromDefault(today: string, title: string, id: string, now: string)
    requires today != []
    ensures Submit(None, DefaultForm(today), today) == None
    ensures title != [] ==> Submit(None, DefaultForm(today).(title := title), today)
                            == Some(CreateWith(DefaultForm(today).(title := title)))
    ensures var t := NewTask(DefaultForm(today).(title := title), id, now);
      t.status == Pending && t.priority == Medium && t.dueDate == today
      && t.title == title && t.description == Some([]) && t.updatedAt == None
  {
    StrCompareZeroIff(today, today);
  }

  /** A task whose due date lies before today cannot be saved from the edit
      form until its due date is moved; neither can one whose title is
      empty. */
  lemma PastDueEditBlocked(t: Task, today: string)
    requires StrCompare(DatePart(t.dueDate), today) < 0 || t.title == []
    ensures Submit(Some(t), FormFromTask(t), today) == None
  {
  }

  /** Saving an edit form without touching it keeps the task's id, title,
      status, priority and creation time, but writes back the date part of the
      due date, stores a missing description as the empty string, and stamps
      `updatedAt`; the browser lets it through when the title is non-empty and
      the due date is not in the past. */
  lemma SaveUntouchedEdit(t: Task, today: string, now: string)
    requires Submittable(FormFromTask(t), today)
    ensures Submit(Some(t), FormFromTask(t), today) == Some(UpdateWith(t.id, FormAsPatch(FormFromTask(t))))
    ensures MergeTask(t, FormAsPatch(FormFromTask(t)), now)
         == t.(description := Some(t.description.GetOr("")), dueDate := DatePart(t.dueDate),
               updatedAt := Some(now))
  {
  }

  /** Saving an untouched edit of a task that has a description and a due date
      without a time changes nothing but `updatedAt`. */
  lemma SaveUntouchedEditPlain(t: Task, now: string)
    requires t.description.Some? && 'T' !in t.dueDate
    ensures MergeTask(t, FormAsPatch(FormFromTask(t)), now) == t.(updatedAt := Some(now))
  {
    DatePartWithoutT(t.dueDate);
  }

  /** A created task opens in the edit form with the data it was created
      from, provided its due date has no time part. */
  lemma PrefillCreated(data: TaskFormData, id: string, now: string)
    requires 'T' !in data.dueDate
    ensures FormFromTask(NewTask(data, id, now)) == data
  {
    DatePartWithoutT(data.dueDate);
  }
}
