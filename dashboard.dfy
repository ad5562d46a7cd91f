/**
 * The dashboard: the history bookkeeping its update path performs before a
 * task is written, the submit dispatch, the status change and batch delete
 * handlers, the selection list, and the split of the filtered tasks into the
 * three status lists. The store is not modelled; what the dashboard asks it
 * to do is recorded, in order, as a log of writes.
 */
module DashBoard {
  import opened Wrappers
  import opened Tasks
  import Seqs
  import TaskForm

  /** A task document as sent to the store: every field of the task except `id`. */
  datatype Doc = Doc(
    title: string,
    description: string,
    category: Category,
    dueDate: string,
    createdAt: string,
    completed: bool,
    attachments: seq<Attachment>,
    order: Option<int>,
    status: Status,
    statusChanges: seq<StatusChange>,
    updates: seq<Update>)

  /** Puts an id back on a document. */
  function Restore(id: string, d: Doc): Task
  {
    Task(id, d.title, d.description, d.category, d.dueDate, d.createdAt, d.completed,
      d.attachments, d.order, d.status, d.statusChanges, d.updates)
  }

  /** The task without its `id` key; nothing else is lost. */
  function Strip(t: Task): (d: Doc)
    ensures Restore(t.id, d) == t
  {
    Doc(t.title, t.description, t.category, t.dueDate, t.createdAt, t.completed,
      t.attachments, t.order, t.status, t.statusChanges, t.updates)
  }

  /** A request sent to the store. */
  datatype Write = AddDoc(draft: TaskForm.Draft) | UpdateDoc(id: string, doc: Doc) | DeleteDoc(id: string)

  /** `tasks.find(t => t.id === id)`: the first cached task with that id. */
  function Find(tasks: seq<Task>, id: string): (r: Option<Task>)
    ensures r.None? <==> forall t | t in tasks :: t.id != id
    ensures r.Some? ==> r.value.id == id
    ensures r.Some? ==> exists i | 0 <= i < |tasks| :: tasks[i] == r.value && forall j | 0 <= j < i :: tasks[j].id != id
  {
    if tasks == [] then None
    else if tasks[0].id == id then
      Some(tasks[0])
    else
      var r := Find(tasks[1..], id);
      if r.Some? then
        var i :| 0 <= i < |tasks[1..]| && tasks[1..][i] == r.value && forall j | 0 <= j < i :: tasks[1..][j].id != id;
        assert tasks[i + 1] == r.value && forall j | 0 <= j < i + 1 :: tasks[j].id != id;
        r
      else
        assert forall t | t in tasks :: t == tasks[0] || t in tasks[1..];
        r
  }

  // ---------------------------------------------------------------------
  // What the update path records before writing
  // ---------------------------------------------------------------------

  /**
   * The keys of a task other than id, statusChanges and updates, in the order
   * the form's record literal lists them, then `order`.
   */
  const ChangeKeys: seq<string> :=
    ["title", "description", "category", "dueDate", "status", "completed", "createdAt", "attachments", "order"]

  /** `order` is the one key a task record may lack. */
  predicate HasKey(t: Task, key: string)
  {
    key != "order" || t.order.Some?
  }

  /**
   * `incoming[key] !== stored[key]`. Arrays compare by identity: the incoming
   * attachments array is the stored one exactly when `sharesAttachments`.
   */
  predicate Differs(key: string, incoming: Task, stored: Task, sharesAttachments: bool)
  {
    if key == "title" then incoming.title != stored.title
    else if key == "description" then incoming.description != stored.description
    else if key == "category" then incoming.category != stored.category
    else if key == "dueDate" then incoming.dueDate != stored.dueDate
    else if key == "status" then incoming.status != stored.status
    else if key == "completed" then incoming.completed != stored.completed
    else if key == "createdAt" then incoming.createdAt != stored.createdAt
    else if key == "attachments" then !sharesAttachments
    else if key == "order" then incoming.order != stored.order
    else false
  }

  function Changed(incoming: Task, stored: Task, sharesAttachments: bool): string -> bool
  {
    (k: string) => HasKey(incoming, k) && Differs(k, incoming, stored, sharesAttachments)
  }

  /** The keys whose value changed, in key order. */
  function ChangedFields(incoming: Task, stored: Task, sharesAttachments: bool): (fields: seq<string>)
    ensures Seqs.IsSubseq(fields, ChangeKeys)
    ensures forall k :: k in fields <==> k in ChangeKeys && HasKey(incoming, k) && Differs(k, incoming, stored, sharesAttachments)
  {
    Seqs.SelectIsSubseq(ChangeKeys, Changed(incoming, stored, sharesAttachments));
    Seqs.Select(ChangeKeys, Changed(incoming, stored, sharesAttachments))
  }

  function FieldUpdate(now: string): string -> Update
  {
    (field: string) => Update(now, field)
  }

  /** The status-change entry, with "" as `from` when there is no stored task. */
  function StatusEntry(incoming: Task, stored: Option<Task>, now: string): StatusChange
  {
    StatusChange(if stored.Some? then StatusName(stored.value.status) else "", StatusName(incoming.status), now)
  }

  predicate StatusDiffers(incoming: Task, stored: Option<Task>)
  {
    stored.None? || incoming.status != stored.value.status
  }

  function WithStatusChange(incoming: Task, stored: Option<Task>, now: string): Task
  {
    if StatusDiffers(incoming, stored)
    then incoming.(statusChanges := incoming.statusChanges + [StatusEntry(incoming, stored, now)])
    else incoming
  }

  function WithFieldUpdates(t: Task, stored: Option<Task>, sharesAttachments: bool, now: string): Task
  {
    if stored.Some? && |ChangedFields(t, stored.value, sharesAttachments)| > 0
    then t.(updates := t.updates + Seqs.Map(ChangedFields(t, stored.value, sharesAttachments), FieldUpdate(now)))
    else t
  }

  /** The task as the update path leaves it before writing. */
  function Prepared(incoming: Task, stored: Option<Task>, sharesAttachments: bool, now: string): Task
  {
    WithFieldUpdates(WithStatusChange(incoming, stored, now), stored, sharesAttachments, now)
  }

  /**
   * The update path grows the incoming task's own history (not the stored
   * task's): one status entry when the status differs from the stored one (or
   * nothing is stored), and one update entry per changed key, in key order,
   * when a task is stored. Every other field is the incoming one.
   */
  lemma PreparedHistory(incoming: Task, stored: Option<Task>, sharesAttachments: bool, now: string)
    ensures var p := Prepared(incoming, stored, sharesAttachments, now);
      && p.statusChanges == incoming.statusChanges
           + (if StatusDiffers(incoming, stored) then [StatusEntry(incoming, stored, now)] else [])
      && p.updates == incoming.updates
           + (if stored.Some? then Seqs.Map(ChangedFields(incoming, stored.value, sharesAttachments), FieldUpdate(now)) else [])
      && p.(statusChanges := incoming.statusChanges, updates := incoming.updates) == incoming
  {
    var t1 := WithStatusChange(incoming, stored, now);
    assert t1.(statusChanges := incoming.statusChanges) == incoming;
    if stored.Some? {
      ChangedIgnoresHistory(t1, incoming, stored.value, sharesAttachments);
      var fields := ChangedFields(incoming, stored.value, sharesAttachments);
      if |fields| == 0 {
        assert Seqs.Map(fields, FieldUpdate(now)) == [];
      }
    }
  }

  /** The changed keys do not depend on the history arrays. */
  lemma ChangedIgnoresHistory(a: Task, b: Task, stored: Task, sharesAttachments: bool)
    requires a.(statusChanges := b.statusChanges, updates := b.updates) == b
    ensures ChangedFields(a, stored, sharesAttachments) == ChangedFields(b, stored, sharesAttachments)
  {
    assert a.title == b.title && a.description == b.description && a.category == b.category;
    assert a.dueDate == b.dueDate && a.status == b.status && a.completed == b.completed;
    assert a.createdAt == b.createdAt && a.order == b.order;
    Seqs.SelectCongruent(ChangeKeys, Changed(a, stored, sharesAttachments), Changed(b, stored, sharesAttachments));
  }

  /** Without a stored task, the status entry runs from "" and no update entry is added. */
  lemma PreparedUnknownTask(incoming: Task, sharesAttachments: bool, now: string)
    ensures var p := Prepared(incoming, None, sharesAttachments, now);
      && p.statusChanges == incoming.statusChanges + [StatusChange("", StatusName(incoming.status), now)]
      && p.updates == incoming.updates
  {
  }

  /** At most one update entry per key, and only for keys that are present and changed. */
  lemma UpdateEntriesAreChangedKeys(incoming: Task, stored: Task, sharesAttachments: bool, now: string)
    ensures var p := Prepared(incoming, Some(stored), sharesAttachments, now);
      && |incoming.updates| <= |p.updates| <= |incoming.updates| + |ChangeKeys|
      && p.updates[..|incoming.updates|] == incoming.updates
      && forall i | |incoming.updates| <= i < |p.updates| ::
           p.updates[i].date == now && p.updates[i].field in ChangeKeys
           && HasKey(incoming, p.updates[i].field) && Differs(p.updates[i].field, incoming, stored, sharesAttachments)
  {
    PreparedHistory(incoming, Some(stored), sharesAttachments, now);
    var fields := ChangedFields(incoming, stored, sharesAttachments);
    var p := Prepared(incoming, Some(stored), sharesAttachments, now);
    var n := |incoming.updates|;
    forall i | n <= i < |p.updates|
      ensures p.updates[i].date == now && p.updates[i].field in ChangeKeys
      ensures HasKey(incoming, p.updates[i].field) && Differs(p.updates[i].field, incoming, stored, sharesAttachments)
    {
      assert p.updates[i] == Update(now, fields[i - n]);
      assert fields[i - n] in fields;
    }
  }

  // ---------------------------------------------------------------------
  // Submit dispatch, status change, selection, status lists
  // ---------------------------------------------------------------------

  /** The draft as a task: no history and no `order` key. */
  function DraftTask(d: TaskForm.Draft, id: string): Task
  {
    Task(id, d.title, d.description, d.category, d.dueDate, d.createdAt, d.completed,
      d.attachments, None, d.status, [], [])
  }

  datatype Route = ToUpdate(task: Task) | ToAdd(draft: TaskForm.Draft)

  /** `handleSubmitTask`: the update path iff the draft has a non-empty id, else the add path. */
  function SubmitRoute(d: TaskForm.Draft): (r: Route)
    ensures r.ToUpdate? <==> d.id.Some? && d.id.value != ""
    ensures r.ToUpdate? ==> r.task.id == d.id.value && Strip(r.task) == Strip(DraftTask(d, d.id.value))
    ensures r.ToAdd? ==> r.draft == d
  {
    if d.id.Some? && d.id.value != "" then ToUpdate(DraftTask(d, d.id.value)) else ToAdd(d)
  }

  /** Editing a task with an id goes to the update path; creating a task goes to the add path. */
  lemma FormSubmitRoute(form: TaskForm.FormState, initialTask: Option<Task>, now: string)
    requires TaskForm.HandleSubmit(form, initialTask, now).Some?
    ensures var r := SubmitRoute(TaskForm.HandleSubmit(form, initialTask, now).value);
      && (r.ToUpdate? <==> initialTask.Some? && initialTask.value.id != "")
      && (r.ToUpdate? ==> r.task.id == initialTask.value.id)
  {
  }

  /**
   * An edit submitted from the form starts from empty history arrays, so what
   * is written holds at most the new entries: the stored history is not carried
   * over. Its fresh `attachments: []` never equals the stored array, so
   * "attachments" is always among the recorded updates.
   */
  lemma FormEditHistory(d: TaskForm.Draft, stored: Task, now: string)
    requires d.id.Some? && d.id.value != ""
    ensures var p := Prepared(SubmitRoute(d).task, Some(stored), false, now);
      && p.statusChanges == (if d.status != stored.status then [StatusChange(StatusName(stored.status), StatusName(d.status), now)] else [])
      && p.updates == Seqs.Map(ChangedFields(SubmitRoute(d).task, stored, false), FieldUpdate(now))
      && Update(now, "attachments") in p.updates
  {
    var t := SubmitRoute(d).task;
    assert t == DraftTask(d, d.id.value);
    assert t.statusChanges == [] && t.updates == [] && t.status == d.status;
    PreparedHistory(t, Some(stored), false, now);
    var fields := ChangedFields(t, stored, false);
    assert "attachments" in ChangeKeys && Differs("attachments", t, stored, false);
    var i :| 0 <= i < |fields| && fields[i] == "attachments";
    assert Seqs.Map(fields, FieldUpdate(now))[i] == Update(now, "attachments");
  }

  /** What `handleStatusChange` submits: the task with the new status and one more status entry. */
  function StatusRequest(task: Task, newStatus: Status, now: string): (r: Task)
    ensures r.status == newStatus
    ensures r.statusChanges == task.statusChanges + [StatusChange(StatusName(task.status), StatusName(newStatus), now)]
    ensures r.(status := task.status, statusChanges := task.statusChanges) == task
  {
    task.(status := newStatus, statusChanges := task.statusChanges + [StatusChange(StatusName(task.status), StatusName(newStatus), now)])
  }

  /**
   * A real status change is recorded twice: once by the handler, dated when it
   * runs, and again by the update path, dated when the mutation runs. Both
   * entries have the same `from` and `to`. The update path also records an
   * update of "status" and leaves `completed` as it was.
   */
  lemma StatusChangeRecordedTwice(task: Task, newStatus: Status, handlerNow: string, mutationNow: string)
    requires newStatus != task.status
    ensures var p := Prepared(StatusRequest(task, newStatus, handlerNow), Some(task), true, mutationNow);
      var from, to := StatusName(task.status), StatusName(newStatus);
      && p.statusChanges == task.statusChanges + [StatusChange(from, to, handlerNow), StatusChange(from, to, mutationNow)]
      && p.updates == task.updates + [Update(mutationNow, "status")]
      && p.status == newStatus && p.completed == task.completed
  {
    var req := StatusRequest(task, newStatus, handlerNow);
    PreparedHistory(req, Some(task), true, mutationNow);
    ChangedOnlyStatus(req, task);
    assert Seqs.Map(["status"], FieldUpdate(mutationNow)) == [Update(mutationNow, "status")];
  }

  /** Re-selecting the current status records one entry from that status to itself and nothing else. */
  lemma SameStatusRecordedOnce(task: Task, handlerNow: string, mutationNow: string)
    ensures var p := Prepared(StatusRequest(task, task.status, handlerNow), Some(task), true, mutationNow);
      && p.statusChanges == task.statusChanges + [StatusChange(StatusName(task.status), StatusName(task.status), handlerNow)]
      && p.updates == task.updates
  {
    var req := StatusRequest(task, task.status, handlerNow);
    PreparedHistory(req, Some(task), true, mutationNow);
    NothingChanged(req, task);
  }

  /** Keys other than `status` cannot differ when only the status and history were replaced. */
  lemma ChangedOnlyStatus(req: Task, task: Task)
    requires req.(status := task.status, statusChanges := task.statusChanges) == task
    requires req.status != task.status
    ensures ChangedFields(req, task, true) == ["status"]
  {
    var p := Changed(req, task, true);
    var keys := ChangeKeys;
    assert !p(keys[0]) && !p(keys[1]) && !p(keys[2]) && !p(keys[3]);
    assert p(keys[4]) && keys[4] == "status";
    assert !p(keys[5]) && !p(keys[6]) && !p(keys[7]) && !p(keys[8]);
    Seqs.SelectOnly(keys, p, 4);
  }

  lemma NothingChanged(req: Task, task: Task)
    requires req.(statusChanges := task.statusChanges) == task
    ensures ChangedFields(req, task, true) == []
  {
    Seqs.SelectNone(ChangeKeys, Changed(req, task, true));
  }

  /** `handleTaskSelection`: select appends the id; deselect drops every occurrence of it. */
  function Selection(prev: seq<string>, id: string, isSelected: bool): (r: seq<string>)
    ensures isSelected ==> r == prev + [id]
    ensures !isSelected ==> Seqs.IsSubseq(r, prev) && id !in r
    ensures !isSelected ==> forall x | x != id :: multiset(r)[x] == multiset(prev)[x]
  {
    var other := (x: string) => x != id;
    Seqs.SelectIsSubseq(prev, other);
    Seqs.SelectMultiset(prev, other);
    if isSelected then prev + [id] else Seqs.Select(prev, other)
  }

  /** One status list of the list view: the filtered tasks with that status, in order. */
  function Column(filtered: seq<Task>, status: Status): (r: seq<Task>)
    ensures Seqs.IsSubseq(r, filtered)
    ensures forall t | t in r :: t in filtered && t.status == status
    ensures forall t | t in filtered && t.status == status :: multiset(r)[t] == multiset(filtered)[t]
  {
    Seqs.SelectIsSubseq(filtered, HasStatus(status));
    Seqs.SelectMultiset(filtered, HasStatus(status));
    Seqs.Select(filtered, HasStatus(status))
  }

  function HasStatus(status: Status): Task -> bool
  {
    (t: Task) => t.status == status
  }

  /** Together the three lists hold every filtered task exactly as often as the filtered list does. */
  lemma ColumnsPartition(filtered: seq<Task>)
    ensures multiset(Column(filtered, Todo)) + multiset(Column(filtered, InProgress))
          + multiset(Column(filtered, Completed)) == multiset(filtered)
  {
    Seqs.SelectMultiset(filtered, HasStatus(Todo));
    Seqs.SelectMultiset(filtered, HasStatus(InProgress));
    Seqs.SelectMultiset(filtered, HasStatus(Completed));
    var m := multiset(Column(filtered, Todo)) + multiset(Column(filtered, InProgress)) + multiset(Column(filtered, Completed));
    assert forall t :: m[t] == multiset(filtered)[t];
    Seqs.MultisetExt(m, multiset(filtered));
  }

  function DeleteWrite(id: string): Write
  {
    DeleteDoc(id)
  }

  // ---------------------------------------------------------------------
  // The dashboard's state and handlers
  // ---------------------------------------------------------------------

  class Dashboard {
    /** The cached result of the task query. */
    var tasks: seq<Task>
    var selectedTasks: seq<string>
    var isFormOpen: bool
    var editingTask: Option<Task>
    /** The requests sent to the store, oldest first. */
    var writes: seq<Write>

    constructor (loaded: seq<Task>)
      ensures tasks == loaded && selectedTasks == [] && !isFormOpen && editingTask == None && writes == []
    {
      tasks, selectedTasks, isFormOpen, editingTask, writes := loaded, [], false, None, [];
    }

    /** `updateTaskMutation`: records the history, then writes the task without its id. */
    method UpdateTask(updatedTask: Task, sharesAttachments: bool, now: string)
      modifies this
      ensures writes == old(writes) + [UpdateDoc(updatedTask.id,
        Strip(Prepared(updatedTask, Find(tasks, updatedTask.id), sharesAttachments, now)))]
      ensures tasks == old(tasks) && selectedTasks == old(selectedTasks)
      ensures isFormOpen == old(isFormOpen) && editingTask == old(editingTask)
    {
      var t := updatedTask;
      var stored := Find(tasks, t.id);
      if stored.None? || t.status != stored.value.status {
        var oldStatus := if stored.Some? then StatusName(stored.value.status) else "";
        t := t.(statusChanges := t.statusChanges + [StatusChange(oldStatus, StatusName(t.status), now)]);
      }
      if stored.Some? {
        var changedFields := ChangedFields(t, stored.value, sharesAttachments);
        if |changedFields| > 0 {
          t := t.(updates := t.updates + Seqs.Map(changedFields, FieldUpdate(now)));
        }
      }
      writes := writes + [UpdateDoc(t.id, Strip(t))];
    }

    /** `handleTaskSelection`. */
    method SelectTask(taskId: string, isSelected: bool)
      modifies this
      ensures selectedTasks == Selection(old(selectedTasks), taskId, isSelected)
      ensures tasks == old(tasks) && writes == old(writes)
      ensures isFormOpen == old(isFormOpen) && editingTask == old(editingTask)
    {
      selectedTasks := Selection(selectedTasks, taskId, isSelected);
    }

    /**
     * `handleStatusChange`: nothing for an unknown id, otherwise an update with
     * one more status entry. The handler's clock reading and the later one of
     * the mutation it starts are separate parameters.
     */
    method ChangeStatus(taskId: string, newStatus: Status, handlerNow: string, mutationNow: string)
      modifies this
      ensures Find(tasks, taskId).None? ==> writes == old(writes)
      ensures Find(tasks, taskId).Some? ==> writes == old(writes) + [UpdateDoc(taskId,
        Strip(Prepared(StatusRequest(Find(tasks, taskId).value, newStatus, handlerNow), Find(tasks, taskId), true, mutationNow)))]
      ensures tasks == old(tasks) && selectedTasks == old(selectedTasks)
      ensures isFormOpen == old(isFormOpen) && editingTask == old(editingTask)
    {
      var found := Find(tasks, taskId);
      if found.Some? {
        var task := found.value;
        UpdateTask(StatusRequest(task, newStatus, handlerNow), true, mutationNow);
      }
    }

    /** `handleEditTask`. */
    method EditTask(task: Task)
      modifies this
      ensures editingTask == Some(task) && isFormOpen
      ensures tasks == old(tasks) && selectedTasks == old(selectedTasks) && writes == old(writes)
    {
      editingTask := Some(task);
      isFormOpen := true;
    }

    /** `handleDeleteTasks`: one delete request per id, in order; then the selection is emptied. */
    method DeleteTasks(taskIds: seq<string>)
      modifies this
      ensures writes == old(writes) + Seqs.Map(taskIds, DeleteWrite)
      ensures selectedTasks == []
      ensures tasks == old(tasks) && isFormOpen == old(isFormOpen) && editingTask == old(editingTask)
    {
      for i := 0 to |taskIds|
        invariant |writes| == |old(writes)| + i
        invariant writes[..|old(writes)|] == old(writes)
        invariant forall k | 0 <= k < i :: writes[|old(writes)| + k] == DeleteDoc(taskIds[k])
        invariant tasks == old(tasks) && isFormOpen == old(isFormOpen) && editingTask == old(editingTask)
      {
        writes := writes + [DeleteDoc(taskIds[i])];
      }
      assert writes == old(writes) + Seqs.Map(taskIds, DeleteWrite);
      selectedTasks := [];
    }

    /** `handleSubmitTask`: dispatch on the id, then close the form. */
    method SubmitTask(taskData: TaskForm.Draft, now: string)
      modifies this
      ensures SubmitRoute(taskData).ToAdd? ==> writes == old(writes) + [AddDoc(taskData)]
      ensures SubmitRoute(taskData).ToUpdate? ==> writes == old(writes) + [UpdateDoc(taskData.id.value,
        Strip(Prepared(SubmitRoute(taskData).task, Find(tasks, taskData.id.value), false, now)))]
      ensures !isFormOpen && editingTask == None
      ensures tasks == old(tasks) && selectedTasks == old(selectedTasks)
    {
      match SubmitRoute(taskData) {
        case ToUpdate(task) => UpdateTask(task, false, now);
        case ToAdd(draft) => writes := writes + [AddDoc(draft)];
      }
      isFormOpen := false;
      editingTask := None;
    }
  }
}
