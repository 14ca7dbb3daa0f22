/**
 * The task records the list component holds, its form validation, the title
 * search, and the pure list updates its handlers apply after a server reply.
 */
module Tasks {
  import opened Text

  /** A task as the component reads it from the server's listing. */
  datatype Task = Task(id: int, title: string, description: string, priority: string,
                       isCompleted: bool, date: string)

  /** The add form's contents (`newTask`). */
  datatype Draft = Draft(title: string, description: string, priority: string)

  const EmptyDraft := Draft("", "", "low")

  /** The record sent to the server on add; note `completed`, not `isCompleted`. */
  datatype NewTaskRecord = NewTaskRecord(title: string, description: string, priority: string,
                                         id: int, completed: bool, date: string)

  /** The per-field messages shown under the form inputs; "" is no message. */
  datatype FieldErrors = FieldErrors(title: string, description: string)

  const NoErrors := FieldErrors("", "")

  /** The keys `handleInputChange` is called with. */
  datatype Field = TitleField | DescriptionField | PriorityField {
    function Key(): string {
      match this
      case TitleField => "title"
      case DescriptionField => "description"
      case PriorityField => "priority"
    }
  }

  /** The selected calendar day as the component renders it: `toISOString` day part and `toDateString`. */
  datatype Day = Day(iso: string, display: string)

  /**
   * What a POST came back with: `Failed` when the request or the JSON parse
   * threw; otherwise the HTTP `ok` flag, the truthiness of the body's
   * `success` field and the body's `status` field ("" when absent).
   */
  datatype Reply = Failed | Answered(httpOk: bool, success: bool, status: string)

  /** What the listing GET came back with. */
  datatype Listing = FetchFailed | Listed(data: seq<Task>)

  /** The add endpoint signals success through `status`. */
  predicate AddAccepted(r: Reply) {
    r.Answered? && r.status == "success"
  }

  /** The delete and update endpoints signal success through `success`. */
  predicate Confirmed(r: Reply) {
    r.Answered? && r.success
  }

  /** Mark-complete also insists on a 2xx status before it reads the body. */
  predicate CompleteConfirmed(r: Reply) {
    r.Answered? && r.httpOk && r.success
  }

  // ---------------------------------------------------------------- validation

  const MinLength := 5

  /** The message naming a field that is too short. */
  function TooShort(field: string): (msg: string)
    ensures |msg| > |field|
    ensures msg[..|field|] == field
  {
    field + " must be min 5 characters"
  }

  /** `validateField`: a message naming the field iff the trimmed value is shorter than five. */
  function ValidateField(field: string, value: string): string {
    if Utf16Length(Trim(value)) < MinLength then TooShort(field) else ""
  }

  lemma ValidateFieldIff(field: string, value: string)
    ensures ValidateField(field, value) == "" <==> Utf16Length(Trim(value)) >= MinLength
    ensures ValidateField(field, value) != "" ==> ValidateField(field, value) == TooShort(field)
  {
  }

  /** A value of white space only is always rejected, however long it is. */
  lemma BlankRejected(field: string, value: string)
    requires AllSpace(value)
    ensures ValidateField(field, value) == TooShort(field)
  {
    TrimBlank(value);
  }

  /** Surrounding white space never changes the verdict. */
  lemma PaddingIrrelevant(field: string, p: string, core: string, q: string)
    requires AllSpace(p) && AllSpace(q)
    requires core == [] || (!IsJsSpace(core[0]) && !IsJsSpace(core[|core| - 1]))
    ensures ValidateField(field, p + core + q) == ValidateField(field, core)
  {
    TrimIgnoresPadding(p, core, q);
    SameTrimSameVerdict(field, p + core + q, core);
  }

  /** The verdict depends on the trimmed value alone. */
  lemma SameTrimSameVerdict(field: string, v: string, w: string)
    requires Trim(v) == Trim(w)
    ensures ValidateField(field, v) == ValidateField(field, w)
  {
  }

  /** The messages `validateForm` records in `errors`. */
  function FormErrors(d: Draft): FieldErrors {
    FieldErrors(ValidateField("Title", d.title), ValidateField("Description", d.description))
  }

  /** `validateForm`'s verdict: neither message is set. */
  function FormPasses(e: FieldErrors): bool {
    e.title == "" && e.description == ""
  }

  lemma ValidateFormIff(d: Draft)
    ensures FormPasses(FormErrors(d)) <==>
      Utf16Length(Trim(d.title)) >= MinLength && Utf16Length(Trim(d.description)) >= MinLength
    ensures FormErrors(d).title != "" <==> Utf16Length(Trim(d.title)) < MinLength
    ensures FormErrors(d).description != "" <==> Utf16Length(Trim(d.description)) < MinLength
  {
  }

  /** A three-letter title is refused with the title message, whatever the description. */
  lemma ShortTitleRejected(description: string, priority: string)
    ensures FormErrors(Draft("abc", description, priority)).title == TooShort("Title")
    ensures !FormPasses(FormErrors(Draft("abc", description, priority)))
  {
    ThreeLettersShort();
  }

  lemma ThreeLettersShort()
    ensures Utf16Length(Trim("abc")) < MinLength
  {
    var abc := "abc";
    VisibleAsciiNotSpace(abc[0]);
    VisibleAsciiNotSpace(abc[2]);
    TrimOfPadded("", abc, "");
    assert "" + abc + "" == abc;
    Utf16LengthBmp(abc);
  }

  /** The record `handleAddTask` submits: the form's fields, not completed, stamped with the day. */
  function BuildRecord(d: Draft, id: int, day: Day): NewTaskRecord {
    NewTaskRecord(d.title, d.description, d.priority, id, false, day.iso)
  }

  /** `{ ...prev, [field]: value }` on the add form. */
  function SetDraftField(d: Draft, field: Field, value: string): Draft {
    match field
    case TitleField => d.(title := value)
    case DescriptionField => d.(description := value)
    case PriorityField => d.(priority := value)
  }

  /** `{ ...prev, [field]: value }` on the task being edited. */
  function SetTaskField(t: Task, field: Field, value: string): Task {
    match field
    case TitleField => t.(title := value)
    case DescriptionField => t.(description := value)
    case PriorityField => t.(priority := value)
  }

  /** `errors[field]`; the errors object has no `priority` entry, which reads as falsy. */
  function ErrorOf(e: FieldErrors, field: Field): string {
    match field
    case TitleField => e.title
    case DescriptionField => e.description
    case PriorityField => ""
  }

  function SetError(e: FieldErrors, field: Field, msg: string): FieldErrors {
    match field
    case TitleField => e.(title := msg)
    case DescriptionField => e.(description := msg)
    case PriorityField => e
  }

  /**
   * `handleInputChange`'s effect on `errors`: a field that shows a message is
   * validated again, under its lower-case key as the field name; the others
   * keep what they show.
   */
  function ErrorsAfterInput(e: FieldErrors, field: Field, value: string): (r: FieldErrors)
    ensures ErrorOf(e, field) == "" ==> r == e
    ensures field != TitleField ==> r.title == e.title
    ensures field != DescriptionField ==> r.description == e.description
    ensures ErrorOf(e, field) != "" && field != PriorityField ==>
      (ErrorOf(r, field) == "" <==> Utf16Length(Trim(value)) >= MinLength)
    ensures ErrorOf(e, field) != "" && field != PriorityField && ErrorOf(r, field) != "" ==>
      ErrorOf(r, field) == TooShort(field.Key())
  {
    if ErrorOf(e, field) != "" then SetError(e, field, ValidateField(field.Key(), value)) else e
  }

  /** `fetchTasks`: the listing replaces the tasks, a failed fetch leaves them. */
  function Refreshed(tasks: seq<Task>, listing: Listing): seq<Task> {
    match listing
    case Listed(data) => data
    case FetchFailed => tasks
  }

  // ------------------------------------------------------------ subsequences

  /** `a` is `b` with some elements left out, the rest in their order. */
  ghost predicate IsSubsequence<T>(a: seq<T>, b: seq<T>) {
    if a == [] then true
    else if b == [] then false
    else (a[0] == b[0] && IsSubsequence(a[1..], b[1..])) || IsSubsequence(a, b[1..])
  }

  /** `Array.prototype.filter`: the elements satisfying `p`, in order, each as often as in `s`. */
  function Keep<T(!new)>(s: seq<T>, p: T -> bool): (r: seq<T>)
    ensures |r| <= |s|
    ensures forall x :: x in r <==> x in s && p(x)
    ensures forall x :: multiset(r)[x] == if p(x) then multiset(s)[x] else 0
    ensures IsSubsequence(r, s)
  {
    if s == [] then []
    else
      var rest := Keep(s[1..], p);
      assert s == [s[0]] + s[1..];
      if p(s[0]) then
        assert ([s[0]] + rest)[1..] == rest;
        [s[0]] + rest
      else
        assert rest == [] || IsSubsequence(rest, s[1..]);
        rest
  }

  lemma {:induction false} KeepAll<T(!new)>(s: seq<T>, p: T -> bool)
    requires forall k :: 0 <= k < |s| ==> p(s[k])
    ensures Keep(s, p) == s
  {
    if s != [] {
      KeepAll(s[1..], p);
      assert [s[0]] + s[1..] == s;
    }
  }

  /** An element that fails `p` is dropped, so the result is shorter. */
  lemma {:induction false} KeepDrops<T(!new)>(s: seq<T>, p: T -> bool, k: nat)
    requires k < |s| && !p(s[k])
    ensures |Keep(s, p)| < |s|
  {
    if k == 0 {
      assert Keep(s, p) == Keep(s[1..], p);
    } else {
      assert s[1..][k - 1] == s[k];
      KeepDrops(s[1..], p, k - 1);
    }
  }

  lemma {:induction false} KeepNone<T(!new)>(s: seq<T>, p: T -> bool)
    requires forall k :: 0 <= k < |s| ==> !p(s[k])
    ensures Keep(s, p) == []
  {
    if s != [] {
      KeepNone(s[1..], p);
    }
  }

  /**
   * Two lists that agree wherever `p` holds, and where it fails in the first
   * fail in the second too, keep the same elements.
   */
  lemma {:induction false} KeepPointwise<T(!new)>(a: seq<T>, b: seq<T>, p: T -> bool)
    requires |a| == |b|
    requires forall k :: 0 <= k < |a| ==> (p(a[k]) ==> b[k] == a[k]) && (!p(a[k]) ==> !p(b[k]))
    ensures Keep(a, p) == Keep(b, p)
  {
    if a != [] {
      KeepPointwise(a[1..], b[1..], p);
    }
  }

  // ------------------------------------------------------------------ search

  /** The row predicate of `filteredTasks`. */
  predicate Matches(t: Task, term: string) {
    Includes(ToLower(t.title), term)
  }

  /** `tasks.filter(task => task.title.toLowerCase().includes(searchTerm))`. */
  function Filter(tasks: seq<Task>, term: string): (r: seq<Task>)
    ensures IsSubsequence(r, tasks)
    ensures forall t :: t in r <==> t in tasks && Matches(t, term)
    ensures forall t :: Matches(t, term) ==> multiset(r)[t] == multiset(tasks)[t]
  {
    Keep(tasks, t => Matches(t, term))
  }

  /**
   * The rows the table body renders: the search result when it is non-empty,
   * and every task when the search matches nothing.
   */
  function ShownRows(tasks: seq<Task>, term: string): (r: seq<Task>)
    ensures r == [] <==> tasks == []
    ensures forall t :: t in r ==> t in tasks
  {
    var found := Filter(tasks, term);
    if found != [] then
      assert found[0] in tasks;
      found
    else tasks
  }

  /** A search that matches something shows exactly the matching tasks. */
  lemma ShownRowsWhenFound(tasks: seq<Task>, term: string, k: nat)
    requires k < |tasks| && Matches(tasks[k], term)
    ensures ShownRows(tasks, term) == Filter(tasks, term)
    ensures forall t :: t in ShownRows(tasks, term) ==> Matches(t, term)
  {
    assert tasks[k] in Filter(tasks, term);
  }

  /** A search that matches nothing falls back to the whole list, in order. */
  lemma ShownRowsWhenNoneFound(tasks: seq<Task>, term: string)
    requires forall k :: 0 <= k < |tasks| ==> !Matches(tasks[k], term)
    ensures ShownRows(tasks, term) == tasks
  {
    KeepNone(tasks, t => Matches(t, term));
  }

  /** An empty search term shows every task, in order. */
  lemma FilterEmptyTerm(tasks: seq<Task>)
    ensures Filter(tasks, "") == tasks
  {
    forall k | 0 <= k < |tasks| ensures Matches(tasks[k], "") {
      IncludesEmpty(ToLower(tasks[k].title));
    }
    KeepAll(tasks, t => Matches(t, ""));
  }

  /** A term holding an upper-case letter matches nothing: why the term is stored lower-cased. */
  lemma FilterUpperTermEmpty(tasks: seq<Task>, term: string, j: nat)
    requires j < |term| && IsAsciiUpper(term[j])
    ensures Filter(tasks, term) == []
  {
    forall k | 0 <= k < |tasks| ensures !Matches(tasks[k], term) {
      NoUpperNotIncludes(ToLower(tasks[k].title), term, j);
    }
    KeepNone(tasks, t => Matches(t, term));
  }

  /** Searching the search result again with the same term changes nothing. */
  lemma FilterIdempotent(tasks: seq<Task>, term: string)
    ensures Filter(Filter(tasks, term), term) == Filter(tasks, term)
  {
    var r := Filter(tasks, term);
    forall k | 0 <= k < |r| ensures Matches(r[k], term) {
      assert r[k] in r;
    }
    KeepAll(r, t => Matches(t, term));
  }

  // ------------------------------------------------------ updates by task id

  /** `tasks.filter(task => task.id !== taskId)`. */
  function RemoveById(tasks: seq<Task>, id: int): (r: seq<Task>)
    ensures IsSubsequence(r, tasks)
    ensures forall t: Task :: t in r ==> t.id != id
    ensures forall t: Task :: t.id != id ==> multiset(r)[t] == multiset(tasks)[t]
  {
    Keep(tasks, (t: Task) => t.id != id)
  }

  /** Deleting an id no task carries leaves the list as it was. */
  lemma RemoveAbsent(tasks: seq<Task>, id: int)
    requires forall k :: 0 <= k < |tasks| ==> tasks[k].id != id
    ensures RemoveById(tasks, id) == tasks
  {
    KeepAll(tasks, (t: Task) => t.id != id);
  }

  /** Deleting an id some task carries shortens the list. */
  lemma RemovePresent(tasks: seq<Task>, id: int, k: nat)
    requires k < |tasks| && tasks[k].id == id
    ensures |RemoveById(tasks, id)| < |tasks|
  {
    KeepDrops(tasks, (t: Task) => t.id != id, k);
  }

  function Toggled(t: Task): Task {
    t.(isCompleted := !t.isCompleted)
  }

  /** `tasks.map(task => task.id === id ? { ...task, isCompleted: !task.isCompleted } : task)`. */
  function ToggleById(tasks: seq<Task>, id: int): (r: seq<Task>)
    ensures |r| == |tasks|
    ensures forall k :: 0 <= k < |tasks| && tasks[k].id == id ==>
      r[k].isCompleted == !tasks[k].isCompleted && r[k].(isCompleted := tasks[k].isCompleted) == tasks[k]
    ensures forall k :: 0 <= k < |tasks| && tasks[k].id != id ==> r[k] == tasks[k]
  {
    seq(|tasks|, k requires 0 <= k < |tasks| => if tasks[k].id == id then Toggled(tasks[k]) else tasks[k])
  }

  /** Completing the same id twice restores the list. */
  lemma ToggleTwice(tasks: seq<Task>, id: int)
    ensures ToggleById(ToggleById(tasks, id), id) == tasks
  {
  }

  /** Toggling touches only the tasks with that id: deleting it afterwards gives what deleting alone gives. */
  lemma ToggleThenRemove(tasks: seq<Task>, id: int)
    ensures RemoveById(ToggleById(tasks, id), id) == RemoveById(tasks, id)
  {
    KeepPointwise(tasks, ToggleById(tasks, id), (t: Task) => t.id != id);
  }

  /** `tasks.map(task => task.id === edited.id ? edited : task)`. */
  function ReplaceById(tasks: seq<Task>, edited: Task): (r: seq<Task>)
    ensures |r| == |tasks|
    ensures forall k :: 0 <= k < |tasks| && tasks[k].id == edited.id ==> r[k] == edited
    ensures forall k :: 0 <= k < |tasks| && tasks[k].id != edited.id ==> r[k] == tasks[k]
  {
    seq(|tasks|, k requires 0 <= k < |tasks| => if tasks[k].id == edited.id then edited else tasks[k])
  }

  /** Saving the same edit twice is saving it once. */
  lemma ReplaceIdempotent(tasks: seq<Task>, edited: Task)
    ensures ReplaceById(ReplaceById(tasks, edited), edited) == ReplaceById(tasks, edited)
  {
  }

  /** An edit touches only the tasks with its id: the rest, in order, are what they were. */
  lemma ReplaceThenRemove(tasks: seq<Task>, edited: Task)
    ensures RemoveById(ReplaceById(tasks, edited), edited.id) == RemoveById(tasks, edited.id)
  {
    KeepPointwise(tasks, ReplaceById(tasks, edited), (t: Task) => t.id != edited.id);
  }

  /** `task.isCompleted ? 'Completed' : 'Not Completed'`, used by the table and by the export. */
  function StatusText(isCompleted: bool): (s: string)
    ensures s == "Completed" <==> isCompleted
    ensures s == "Not Completed" <==> !isCompleted
  {
    if isCompleted then "Completed" else "Not Completed"
  }
}
