/**
 * The `TaskList` component's state and handlers. Each `useState` field is a
 * field of the class; each handler is a method that, given what the server
 * answered, sets the fields the handler's setters set.
 */
module TaskListView {
  import opened Wrappers
  import opened Text
  import opened Tasks
  import opened CsvExport

  /** All the component's state at once, to say what a handler leaves alone. */
  datatype View = View(tasks: seq<Task>, selectedDate: Day, modalOpen: bool, newTask: Draft,
                       errors: FieldErrors, searchTerm: string, editModalOpen: bool,
                       currentTask: Option<Task>)

  class TaskList {
    var tasks: seq<Task>
    var selectedDate: Day
    var modalOpen: bool
    var newTask: Draft
    var errors: FieldErrors
    var searchTerm: string
    var editModalOpen: bool
    var currentTask: Option<Task>

    function State(): View
      reads this
    {
      View(tasks, selectedDate, modalOpen, newTask, errors, searchTerm, editModalOpen, currentTask)
    }

    /** The search term is kept lower-cased, and the edit dialog is open only over a task. */
    ghost predicate Valid()
      reads this
    {
      searchTerm == ToLower(searchTerm) && (editModalOpen ==> currentTask.Some?)
    }

    /** The initial `useState` values. */
    constructor (today: Day)
      ensures Valid()
      ensures State() == View([], today, false, EmptyDraft, NoErrors, "", false, None)
    {
      tasks := [];
      selectedDate := today;
      modalOpen := false;
      newTask := EmptyDraft;
      errors := NoErrors;
      searchTerm := "";
      editModalOpen := false;
      currentTask := None;
    }

    /** `handleDateChange`; the re-fetch the date change triggers is a separate `FetchTasks`. */
    method HandleDateChange(d: Day)
      requires Valid()
      modifies this
      ensures Valid()
      ensures State() == old(State()).(selectedDate := d)
    {
      selectedDate := d;
    }

    /** `handleSearch`: the term is stored lower-cased. */
    method HandleSearch(value: string)
      requires Valid()
      modifies this
      ensures Valid()
      ensures State() == old(State()).(searchTerm := ToLower(value))
      ensures forall i :: 0 <= i < |searchTerm| ==> !IsAsciiUpper(searchTerm[i])
    {
      searchTerm := ToLower(value);
      ToLowerIdempotent(value);
    }

    /** `filteredTasks`: the tasks whose lower-cased title contains the term, in order. */
    function FilteredTasks(): (r: seq<Task>)
      reads this
      ensures IsSubsequence(r, tasks)
      ensures forall t :: t in r <==> t in tasks && Includes(ToLower(t.title), searchTerm)
      ensures forall t :: Matches(t, searchTerm) ==> multiset(r)[t] == multiset(tasks)[t]
      ensures searchTerm == "" ==> r == tasks
    {
      FilterEmptyTerm(tasks);
      Filter(tasks, searchTerm)
    }

    /** The table body: `filteredTasks` when it is non-empty, otherwise every task. */
    function TableRows(): (r: seq<Task>)
      reads this
      ensures r == [] <==> tasks == []
      ensures forall t :: t in r ==> t in tasks
      ensures searchTerm == "" ==> r == tasks
      ensures (exists k :: 0 <= k < |tasks| && Matches(tasks[k], searchTerm)) ==> r == FilteredTasks()
      ensures (forall k :: 0 <= k < |tasks| ==> !Matches(tasks[k], searchTerm)) ==> r == tasks
    {
      FilterEmptyTerm(tasks);
      ShownRows(tasks, searchTerm)
    }

    /** `validateForm`: records both messages, passes iff both are empty. */
    method ValidateForm() returns (ok: bool)
      requires Valid()
      modifies this
      ensures Valid()
      ensures State() == old(State()).(errors := FormErrors(old(newTask)))
      ensures ok == FormPasses(FormErrors(old(newTask)))
    {
      errors := FormErrors(newTask);
      ok := FormPasses(errors);
    }

    /** `handleInputChange`: store the value; re-validate a field that shows a message. */
    method HandleInputChange(field: Field, value: string)
      requires Valid()
      modifies this
      ensures Valid()
      ensures State() == old(State()).(newTask := SetDraftField(old(newTask), field, value),
                                       errors := ErrorsAfterInput(old(errors), field, value))
    {
      newTask := SetDraftField(newTask, field, value);
      errors := ErrorsAfterInput(errors, field, value);
    }

    /** `fetchTasks` once its GET has come back. */
    method FetchTasks(listing: Listing)
      requires Valid()
      modifies this
      ensures Valid()
      ensures State() == old(State()).(tasks := Refreshed(old(tasks), listing))
    {
      tasks := Refreshed(tasks, listing);
    }

    /**
     * `handleAddTask`. Returns the record posted, or None when validation
     * stopped it before any request. `reply` is what the add endpoint
     * answered and `listing` what the re-fetch it triggers answered.
     */
    method HandleAddTask(id: int, reply: Reply, listing: Listing) returns (request: Option<NewTaskRecord>)
      requires Valid()
      modifies this
      ensures Valid()
      ensures request.Some? <==> FormPasses(FormErrors(old(newTask)))
      ensures request.Some? ==> request.value == NewTaskRecord(old(newTask).title, old(newTask).description,
                                                              old(newTask).priority, id, false, old(selectedDate).iso)
      ensures request.Some? && AddAccepted(reply) ==>
        State() == old(State()).(errors := FormErrors(old(newTask)), newTask := EmptyDraft, modalOpen := false,
                                 tasks := Refreshed(old(tasks), listing))
      ensures !(request.Some? && AddAccepted(reply)) ==>
        State() == old(State()).(errors := FormErrors(old(newTask)))
    {
      ghost var validated := old(State()).(errors := FormErrors(old(newTask)));
      var ok := ValidateForm();
      assert State() == validated;
      if !ok {
        return None;
      }
      request := Some(BuildRecord(newTask, id, selectedDate));
      if AddAccepted(reply) {
        newTask := EmptyDraft;
        modalOpen := false;
        FetchTasks(listing);
        assert State() == validated.(newTask := EmptyDraft, modalOpen := false,
                                     tasks := Refreshed(old(tasks), listing));
      }
    }

    /** `handleDelete`: drop the id's tasks only on a confirmed success. */
    method HandleDelete(taskId: int, reply: Reply)
      requires Valid()
      modifies this
      ensures Valid()
      ensures State() == old(State()).(tasks := if Confirmed(reply) then RemoveById(old(tasks), taskId) else old(tasks))
      ensures Confirmed(reply) ==> IsSubsequence(tasks, old(tasks)) && forall t :: t in tasks ==> t.id != taskId
    {
      if Confirmed(reply) {
        tasks := RemoveById(tasks, taskId);
      }
    }

    /** `handleComplete`: flip the id's tasks only on a 2xx reply whose body reports success. */
    method HandleComplete(id: int, reply: Reply)
      requires Valid()
      modifies this
      ensures Valid()
      ensures State() == old(State()).(tasks := if CompleteConfirmed(reply) then ToggleById(old(tasks), id) else old(tasks))
      ensures |tasks| == |old(tasks)|
    {
      if CompleteConfirmed(reply) {
        tasks := ToggleById(tasks, id);
      }
    }

    /** `handleEdit`: open the edit dialog over a task. */
    method HandleEdit(task: Task)
      requires Valid()
      modifies this
      ensures Valid()
      ensures State() == old(State()).(currentTask := Some(task), editModalOpen := true)
    {
      currentTask := Some(task);
      editModalOpen := true;
    }

    /** The edit dialog's inputs: `{ ...prev, [field]: value }` on the task being edited. */
    method HandleEditChange(field: Field, value: string)
      requires Valid() && editModalOpen
      modifies this
      ensures Valid()
      ensures State() == old(State()).(currentTask := Some(SetTaskField(old(currentTask).value, field, value)))
    {
      currentTask := Some(SetTaskField(currentTask.value, field, value));
    }

    /**
     * `handleUpdateTask`: posts the edited task; on a confirmed success it
     * replaces the id's tasks and closes the dialog, otherwise nothing moves.
     */
    method HandleUpdateTask(reply: Reply) returns (request: Task)
      requires Valid() && editModalOpen
      modifies this
      ensures Valid()
      ensures Some(request) == old(currentTask)
      ensures Confirmed(reply) ==>
        State() == old(State()).(tasks := ReplaceById(old(tasks), request), editModalOpen := false, currentTask := None)
      ensures !Confirmed(reply) ==> State() == old(State())
    {
      request := currentTask.value;
      if Confirmed(reply) {
        tasks := ReplaceById(tasks, request);
        editModalOpen := false;
        currentTask := None;
      }
    }

    /** The add button. */
    method OpenAddDialog()
      requires Valid()
      modifies this
      ensures Valid()
      ensures State() == old(State()).(modalOpen := true)
    {
      modalOpen := true;
    }

    /** The add dialog's cancel button and backdrop: the draft and its messages stay. */
    method CloseAddDialog()
      requires Valid()
      modifies this
      ensures Valid()
      ensures State() == old(State()).(modalOpen := false)
    {
      modalOpen := false;
    }

    /** The edit dialog's cancel button and backdrop: the task being edited stays. */
    method CloseEditDialog()
      requires Valid()
      modifies this
      ensures Valid()
      ensures State() == old(State()).(editModalOpen := false)
    {
      editModalOpen := false;
    }

    /** `exportCSV` up to the joined text, with the selected day's display form in every row. */
    function ExportText(): (r: Result<string, ExportError>)
      reads this
      ensures r.Failure? <==> tasks == []
      ensures r == ExportCsv(tasks, selectedDate.display)
    {
      ExportCsv(tasks, selectedDate.display)
    }
  }
}
