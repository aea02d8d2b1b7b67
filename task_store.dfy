/** The server's in-memory task store and its four request handlers
    (server/controllers/tasks.ts). The module-level `tasks` array becomes the
    field of a `Store` object; each handler becomes a method that returns the
    response it would send. */
module TaskStore {
  import opened Tasks
  import opened Sequences

  /** A response: HTTP status and the JSON envelope `{message, success, data?}`. */
  datatype Envelope<T> = Envelope(status: nat, success: bool, message: string, data: Option<T>)

  /** An error response; error envelopes carry no `data`. */
  function Failure<T>(status: nat, message: string): (r: Envelope<T>)
    ensures !r.success && r.data.None?
  {
    Envelope(status, false, message, None)
  }

  /** JavaScript truthiness of the `title` field: present and not "". A title
      made only of spaces is truthy. */
  predicate HasTitle(title: Option<string>)
    ensures title.None? || title == Some("") ==> !HasTitle(title)
    ensures title.Some? && |title.value| > 0 ==> HasTitle(title)
  {
    title.Some? && title.value != ""
  }

  /** `completed || false` on an optional boolean. */
  function CompletedOrFalse(completed: Option<bool>): (c: bool)
    ensures c <==> completed == Some(true)
  {
    match completed
    case Some(c) => c || false
    case None => false
  }

  /** The record a successful create appends, with the id chosen by the caller. */
  function NewTask(input: CreateTodoInput, id: string): (t: Task)
    requires HasTitle(input.title)
    ensures t.id == id && t.title == input.title.value && t.title != ""
    ensures t.completed <==> input.completed == Some(true)
  {
    Task(id, input.title.value, CompletedOrFalse(input.completed))
  }

  /** `{...existing, ...patch}`: the fields present in the patch win. */
  function Merge(existing: Task, patch: UpdateTodoInput): (r: Task)
    ensures r.id == existing.id
  {
    Task(existing.id,
         match patch.title case Some(t) => t case None => existing.title,
         match patch.completed case Some(c) => c case None => existing.completed)
  }

  /** Each field comes from the patch when present there and from the existing
      record otherwise. */
  lemma MergeFields(existing: Task, patch: UpdateTodoInput)
    ensures patch.title.Some? ==> Merge(existing, patch).title == patch.title.value
    ensures patch.title.None? ==> Merge(existing, patch).title == existing.title
    ensures patch.completed.Some? ==> Merge(existing, patch).completed == patch.completed.value
    ensures patch.completed.None? ==> Merge(existing, patch).completed == existing.completed
  {
  }

  /** An empty patch leaves the record as it was. */
  lemma MergeEmpty(existing: Task)
    ensures Merge(existing, UpdateTodoInput(None, None)) == existing
  {
  }

  /** Sending the same patch twice has the effect of sending it once. */
  lemma MergeIdempotent(existing: Task, patch: UpdateTodoInput)
    ensures Merge(Merge(existing, patch), patch) == Merge(existing, patch)
  {
  }

  /** `{completed: true}` changes only `completed`. */
  lemma MergeCompletedOnly(existing: Task, c: bool)
    ensures Merge(existing, UpdateTodoInput(None, Some(c))) == existing.(completed := c)
  {
  }

  /** Unlike a create, an update does not validate the title: it can set it to "". */
  lemma UpdateAcceptsEmptyTitle(existing: Task)
    ensures !HasTitle(Some(Merge(existing, UpdateTodoInput(Some(""), None)).title))
  {
  }

  /** `tasks.findIndex(task => task.id === id)`: -1 when absent. */
  method FindIndex(s: seq<Task>, id: string) returns (i: int)
    ensures -1 <= i < |s|
    ensures i == -1 <==> !HasId(s, id)
    ensures 0 <= i ==> IndexOfId(s, id) == Some(i)
  {
    i := 0;
    while i < |s|
      invariant 0 <= i <= |s|
      invariant forall j :: 0 <= j < i ==> s[j].id != id
    {
      if s[i].id == id {
        return;
      }
      i := i + 1;
    }
    i := -1;
  }

  /** The three records the store starts with. */
  function SampleTasks(): (s: seq<Task>)
    ensures UniqueIds(s)
  {
    [Task("1", "Sample Task 1", false),
     Task("2", "Sample Task 2", true),
     Task("3", "Sample Task 3", false)]
  }

  class Store {
    var tasks: seq<Task>

    constructor ()
      ensures tasks == SampleTasks()
    {
      tasks := SampleTasks();
    }

    /** GET /tasks. */
    method GetTasks() returns (r: Envelope<seq<Task>>)
      ensures r.status == 200 && r.success
      ensures r.message == "All Tasks Fetched Successfully"
      ensures r.data == Some(tasks)
    {
      r := Envelope(200, true, "All Tasks Fetched Successfully", Some(tasks));
    }

    /** POST /tasks, with `id` standing for the clock-derived id. */
    method AddTask(input: CreateTodoInput, id: string) returns (r: Envelope<Task>)
      modifies this
      ensures !HasTitle(input.title) ==>
        r == Failure(400, "Title is required") && tasks == old(tasks)
      ensures HasTitle(input.title) ==>
        r == Envelope(201, true, "Task added successfully", Some(NewTask(input, id))) &&
        tasks == old(tasks) + [NewTask(input, id)]
      ensures HasTitle(input.title) && !HasId(old(tasks), id) ==>
        IndexOfId(tasks, id) == Some(|old(tasks)|)
    {
      if !HasTitle(input.title) {
        r := Failure(400, "Title is required");
        return;
      }
      var t := NewTask(input, id);
      CreateAppends(tasks, input, id);
      tasks := tasks + [t];
      r := Envelope(201, true, "Task added successfully", Some(t));
    }

    /** PUT /tasks/:id: merge the patch into the first record with that id. */
    method UpdateTask(id: string, patch: UpdateTodoInput) returns (r: Envelope<Task>)
      modifies this
      ensures IndexOfId(old(tasks), id).None? ==>
        r == Failure(404, "Task not found") && tasks == old(tasks)
      ensures IndexOfId(old(tasks), id).Some? ==>
        var i := IndexOfId(old(tasks), id).value;
        tasks == old(tasks)[i := Merge(old(tasks)[i], patch)] &&
        r == Envelope(200, true, "Task updated successfully", Some(tasks[i]))
    {
      var i := FindIndex(tasks, id);
      if i == -1 {
        r := Failure(404, "Task not found");
        return;
      }
      var t := Merge(tasks[i], patch);
      tasks := tasks[i := t];
      r := Envelope(200, true, "Task updated successfully", Some(t));
    }

    /** DELETE /tasks/:id: splice out the first record with that id. */
    method DeleteTask(id: string) returns (r: Envelope<string>)
      modifies this
      ensures IndexOfId(old(tasks), id).None? ==>
        r == Failure(404, "Task not found") && tasks == old(tasks)
      ensures IndexOfId(old(tasks), id).Some? ==>
        tasks == RemoveAt(old(tasks), IndexOfId(old(tasks), id).value) &&
        r == Envelope(200, true, "Task deleted successfully", Some(id))
    {
      var i := FindIndex(tasks, id);
      if i == -1 {
        r := Failure(404, "Task not found");
        return;
      }
      tasks := RemoveAt(tasks, i);
      r := Envelope(200, true, "Task deleted successfully", Some(id));
    }
  }

  /** With a fresh id, the record a create appends is the one later requests
      find. */
  lemma CreateAppends(s: seq<Task>, input: CreateTodoInput, id: string)
    requires HasTitle(input.title)
    ensures !HasId(s, id) ==> IndexOfId(s + [NewTask(input, id)], id) == Some(|s|)
  {
    var t := s + [NewTask(input, id)];
    assert t[|s|].id == id;
    assert t[..|s|] == s;
  }

  /** An update keeps every id at its index, so the same record is found again. */
  lemma UpdateKeepsIds(s: seq<Task>, i: nat, patch: UpdateTodoInput, id: string)
    requires i < |s|
    ensures forall j :: 0 <= j < |s| ==> s[i := Merge(s[i], patch)][j].id == s[j].id
    ensures IndexOfId(s[i := Merge(s[i], patch)], id) == IndexOfId(s, id)
  {
    var t := s[i := Merge(s[i], patch)];
    match IndexOfId(s, id)
    case None =>
      assert !HasId(t, id);
    case Some(k) =>
      assert t[k].id == id;
  }

  /** A delete removes exactly the record at the found index; the others keep
      their order and multiplicity. */
  lemma DeleteRemovesOne(s: seq<Task>, id: string)
    requires HasId(s, id)
    ensures var i := IndexOfId(s, id).value;
      |RemoveAt(s, i)| == |s| - 1 &&
      multiset(RemoveAt(s, i)) + multiset{s[i]} == multiset(s) &&
      IsSubseq(RemoveAt(s, i), s)
  {
    var i := IndexOfId(s, id).value;
    RemoveAtMultiset(s, i);
    RemoveAtIsSubseq(s, i);
  }

  /** Once a unique id is deleted, a second delete of it finds nothing (404). */
  lemma DeleteTwiceNotFound(s: seq<Task>, id: string)
    requires HasId(s, id)
    requires forall j :: 0 <= j < |s| && j != IndexOfId(s, id).value ==> s[j].id != id
    ensures IndexOfId(RemoveAt(s, IndexOfId(s, id).value), id).None?
  {
    var i := IndexOfId(s, id).value;
    var t := RemoveAt(s, i);
    forall j | 0 <= j < |t|
      ensures t[j].id != id
    {
      if j < i { assert t[j] == s[j]; } else { assert t[j] == s[j + 1]; }
    }
  }

  /** Every operation keeps ids unique, provided a create is given an id that
      is not already in use. */
  lemma CreateKeepsUnique(s: seq<Task>, input: CreateTodoInput, id: string)
    requires UniqueIds(s) && HasTitle(input.title) && !HasId(s, id)
    ensures UniqueIds(s + [NewTask(input, id)])
  {
    var t := s + [NewTask(input, id)];
    forall i, j | 0 <= i < j < |t|
      ensures t[i].id != t[j].id
    {
      if j == |s| { assert t[i] == s[i]; }
    }
  }

  lemma UpdateKeepsUnique(s: seq<Task>, i: nat, patch: UpdateTodoInput)
    requires UniqueIds(s) && i < |s|
    ensures UniqueIds(s[i := Merge(s[i], patch)])
  {
  }

  lemma DeleteKeepsUnique(s: seq<Task>, i: nat)
    requires UniqueIds(s) && i < |s|
    ensures UniqueIds(RemoveAt(s, i))
  {
    var t := RemoveAt(s, i);
    forall a, b | 0 <= a < b < |t|
      ensures t[a].id != t[b].id
    {
      var a' := if a < i then a else a + 1;
      var b' := if b < i then b else b + 1;
      assert t[a] == s[a'] && t[b] == s[b'];
    }
  }

  /** The session of a create, an update, a delete and a repeated delete,
      on a store fresh from start-up. */
  method ExampleSession(id: string)
    returns (created: Envelope<Task>, updated: Envelope<Task>,
             deleted: Envelope<string>, again: Envelope<string>)
    requires id != "1" && id != "2" && id != "3"
    ensures created.status == 201 && created.data == Some(Task(id, "Buy milk", false))
    ensures updated.status == 200 && updated.data == Some(Task(id, "Buy milk", true))
    ensures deleted.status == 200 && deleted.data == Some(id)
    ensures again.status == 404 && !again.success
  {
    var store := new Store();
    created := store.AddTask(CreateTodoInput(Some("Buy milk"), None), id);
    CreateAppends(SampleTasks(), CreateTodoInput(Some("Buy milk"), None), id);
    updated := store.UpdateTask(id, UpdateTodoInput(None, Some(true)));
    deleted := store.DeleteTask(id);
    assert store.tasks == SampleTasks();
    again := store.DeleteTask(id);
  }
}
