/** The list logic of the client page (client/app/page.tsx) with React, axios
    and rendering stripped away. The component's state is a `PageState`; each
    event handler is a function from the old state (and, where the handler
    awaits the server, the server's reply) to the new state. For add and toggle
    the reply is an `Option<Task>`, and `None` stands for a request that
    failed. Delete takes a flag `ok` instead, since the page does not read the
    reply's body. On a failed request the handlers leave the state as it was. */
module TaskPage {
  import opened Tasks
  import opened Sequences
  import opened Text

  /** The component state that the list logic reads and writes. */
  datatype PageState = PageState(tasks: seq<Task>, filtered: seq<Task>, newTitle: string, query: string)

  /** The search test: the lowercased title includes the lowercased query. */
  predicate Matches(t: Task, query: string)
    ensures query == "" ==> Matches(t, query)
    ensures Matches(t, query) ==> |query| <= |t.title|
  {
    Includes(Lower(t.title), Lower(query))
  }

  /** The filter effect's list: the tasks that match the query. */
  function FilterTasks(tasks: seq<Task>, query: string): (r: seq<Task>)
    ensures |r| <= |tasks|
    ensures forall t :: t in r ==> t in tasks && Matches(t, query)
    ensures forall i :: 0 <= i < |tasks| && Matches(tasks[i], query) ==> tasks[i] in r
  {
    Filter(tasks, (t: Task) => Matches(t, query))
  }

  /** The matching tasks are kept in their original order and as often as
      they occur; the others are dropped. */
  lemma FilterTasksExact(tasks: seq<Task>, query: string, t: Task)
    ensures IsSubseq(FilterTasks(tasks, query), tasks)
    ensures multiset(FilterTasks(tasks, query))[t] ==
      if Matches(t, query) then multiset(tasks)[t] else 0
  {
    FilterIsSubseq(tasks, (t: Task) => Matches(t, query));
    FilterCount(tasks, (t: Task) => Matches(t, query), t);
  }

  /** An empty search shows every task. */
  lemma FilterEmptyQuery(tasks: seq<Task>)
    ensures FilterTasks(tasks, "") == tasks
  {
    forall i | 0 <= i < |tasks|
      ensures Matches(tasks[i], "")
    {
      IncludesEmpty(Lower(tasks[i].title));
    }
    FilterAll(tasks, (t: Task) => Matches(t, ""));
  }

  /** Queries that differ only in the case of ASCII letters select the same tasks. */
  lemma SearchIgnoresCase(tasks: seq<Task>, q1: string, q2: string)
    requires |q1| == |q2| && forall i :: 0 <= i < |q1| ==> SameIgnoringCase(q1[i], q2[i])
    ensures FilterTasks(tasks, q1) == FilterTasks(tasks, q2)
  {
    LowerEq(q1, q2);
    FilterExt(tasks, (t: Task) => Matches(t, q1), (t: Task) => Matches(t, q2));
  }

  /** The effect on `[searchQuery, tasks]`: recompute the filtered list. */
  function FilterEffect(st: PageState): (r: PageState)
    ensures r.tasks == st.tasks && r.newTitle == st.newTitle && r.query == st.query
    ensures forall t :: t in r.filtered ==> t in st.tasks && Matches(t, st.query)
    ensures Settled(r)
  {
    st.(filtered := FilterTasks(st.tasks, st.query))
  }

  /** The state the filter effect leaves behind. */
  predicate Settled(st: PageState)
  {
    st.filtered == FilterTasks(st.tasks, st.query)
  }

  /** Appending a task shows it at the end of the filtered list exactly when it
      matches the query. */
  lemma {:induction false} FilterTasksAppend(tasks: seq<Task>, query: string, t: Task)
    ensures FilterTasks(tasks + [t], query) ==
      FilterTasks(tasks, query) + (if Matches(t, query) then [t] else [])
    decreases |tasks|
  {
    if tasks == [] {
      assert [t][1..] == [];
    } else {
      FilterTasksAppend(tasks[1..], query, t);
      assert (tasks + [t])[1..] == tasks[1..] + [t];
    }
  }

  // ----- addTask -----

  /** The body the page posts, or `None` when the title trims to "" and
      nothing is sent. */
  function AddRequest(st: PageState): (r: Option<CreateTodoInput>)
    ensures r.None? <==> IsBlank(st.newTitle)
    ensures r.Some? ==> r.value.title == Some(st.newTitle) && r.value.completed == Some(false)
  {
    if Trim(st.newTitle) == "" then None
    else Some(CreateTodoInput(Some(st.newTitle), Some(false)))
  }

  /** `addTask`, given the task the server returned (or `None` on failure). */
  function AddTask(st: PageState, reply: Option<Task>): (r: PageState)
    ensures IsBlank(st.newTitle) || reply.None? ==> r == st
    ensures !IsBlank(st.newTitle) && reply.Some? ==>
      |r.tasks| == |st.tasks| + 1 && r.tasks[..|st.tasks|] == st.tasks &&
      r.tasks[|st.tasks|] == reply.value && r.newTitle == "" &&
      r.filtered == st.filtered && r.query == st.query
  {
    if AddRequest(st).None? then st
    else match reply
      case None => st
      case Some(t) => st.(tasks := st.tasks + [t], newTitle := "")
  }

  // ----- toggleTask -----

  /** The body `toggleTask` sends: the negation of the first matching task's
      `completed`, or `None` when no task has the id and nothing is sent. */
  function ToggleRequest(tasks: seq<Task>, id: string): (r: Option<UpdateTodoInput>)
    ensures r.None? <==> !HasId(tasks, id)
    ensures r.Some? ==>
      (exists i :: 0 <= i < |tasks| && tasks[i].id == id &&
         (forall j :: 0 <= j < i ==> tasks[j].id != id) &&
         r.value == UpdateTodoInput(None, Some(!tasks[i].completed)))
  {
    match IndexOfId(tasks, id)
    case None => None
    case Some(i) => Some(UpdateTodoInput(None, Some(!tasks[i].completed)))
  }

  /** `tasks.map(task => task.id === id ? updated : task)`. */
  function ReplaceById(tasks: seq<Task>, id: string, updated: Task): (r: seq<Task>)
    ensures |r| == |tasks|
    ensures forall i :: 0 <= i < |tasks| ==>
      r[i] == if tasks[i].id == id then updated else tasks[i]
  {
    if tasks == [] then []
    else [if tasks[0].id == id then updated else tasks[0]] + ReplaceById(tasks[1..], id, updated)
  }

  /** `toggleTask`, given the task the server returned (or `None` on failure). */
  function ToggleTask(st: PageState, id: string, reply: Option<Task>): (r: PageState)
    ensures !HasId(st.tasks, id) || reply.None? ==> r == st
    ensures HasId(st.tasks, id) && reply.Some? ==>
      r == st.(tasks := ReplaceById(st.tasks, id, reply.value))
  {
    if ToggleRequest(st.tasks, id).None? then st
    else match reply
      case None => st
      case Some(u) => st.(tasks := ReplaceById(st.tasks, id, u))
  }

  // ----- deleteTask -----

  /** `tasks.filter(task => task.id !== id)`. */
  function RemoveById(tasks: seq<Task>, id: string): (r: seq<Task>)
    ensures forall t :: t in r ==> t in tasks && t.id != id
    ensures forall i :: 0 <= i < |tasks| && tasks[i].id != id ==> tasks[i] in r
  {
    Filter(tasks, (t: Task) => t.id != id)
  }

  /** The tasks left are the others, in their original order, each as often
      as before. */
  lemma RemoveByIdExact(tasks: seq<Task>, id: string, t: Task)
    ensures IsSubseq(RemoveById(tasks, id), tasks)
    ensures multiset(RemoveById(tasks, id))[t] == if t.id != id then multiset(tasks)[t] else 0
  {
    FilterIsSubseq(tasks, (t: Task) => t.id != id);
    FilterCount(tasks, (t: Task) => t.id != id, t);
  }

  /** `deleteTask`, given whether the request succeeded. */
  function DeleteTask(st: PageState, id: string, ok: bool): (r: PageState)
    ensures !ok ==> r == st
    ensures ok ==>
      r.tasks == RemoveById(st.tasks, id) && r.filtered == st.filtered &&
      r.newTitle == st.newTitle && r.query == st.query
  {
    if ok then st.(tasks := RemoveById(st.tasks, id)) else st
  }

  // ----- onDragEnd -----

  /** The two splices of `onDragEnd`: take the item at `source` out, then put
      it in at `dest`. The result is a permutation in which the moved item sits
      at `dest` and the others keep their relative order. */
  function Move(s: seq<Task>, source: nat, dest: nat): (r: seq<Task>)
    requires source < |s| && dest < |s|
    ensures |r| == |s| && multiset(r) == multiset(s)
    ensures r[dest] == s[source]
    ensures RemoveAt(r, dest) == RemoveAt(s, source)
  {
    var rest := RemoveAt(s, source);
    RemoveAtMultiset(s, source);
    InsertAtMultiset(rest, dest, s[source]);
    RemoveInsert(rest, dest, s[source]);
    InsertAt(rest, dest, s[source])
  }

  /** Dragging an item back to where it came from undoes the move. */
  lemma MoveBack(s: seq<Task>, source: nat, dest: nat)
    requires source < |s| && dest < |s|
    ensures Move(Move(s, source, dest), dest, source) == s
  {
    InsertRemove(s, source);
  }

  /** `onDragEnd`: with no destination nothing changes; otherwise the filtered
      list, reordered, becomes both `filteredTasks` and `tasks`. */
  function OnDragEnd(st: PageState, source: nat, dest: Option<nat>): (r: PageState)
    requires dest.Some? ==> source < |st.filtered| && dest.value < |st.filtered|
    ensures dest.None? ==> r == st
    ensures dest.Some? ==>
      r.tasks == r.filtered && |r.tasks| == |st.filtered| &&
      multiset(r.tasks) == multiset(st.filtered) &&
      r.tasks[dest.value] == st.filtered[source] &&
      RemoveAt(r.tasks, dest.value) == RemoveAt(st.filtered, source) &&
      r.newTitle == st.newTitle && r.query == st.query
  {
    match dest
    case None => st
    case Some(d) =>
      var items := Move(st.filtered, source, d);
      st.(filtered := items, tasks := items)
  }

  /** After a drag during a search, every task left in `tasks` matches the
      search: a task hidden by the search is gone from `tasks`. */
  lemma DragDropsHidden(st: PageState, source: nat, dest: nat, t: Task)
    requires Settled(st)
    requires source < |st.filtered| && dest < |st.filtered|
    requires !Matches(t, st.query)
    ensures t !in OnDragEnd(st, source, Some(dest)).tasks
  {
    var r := OnDragEnd(st, source, Some(dest));
    forall x | x in r.tasks
      ensures Matches(x, st.query)
    {
      assert x in multiset(r.tasks);
      assert x in st.filtered;
    }
  }

  /** If the search hides any task, a drag shrinks `tasks`. */
  lemma DragShrinksTasks(st: PageState, source: nat, dest: nat, k: nat)
    requires Settled(st)
    requires source < |st.filtered| && dest < |st.filtered|
    requires k < |st.tasks| && !Matches(st.tasks[k], st.query)
    ensures |OnDragEnd(st, source, Some(dest)).tasks| < |st.tasks|
  {
    FilterDrops(st.tasks, (t: Task) => Matches(t, st.query), k);
  }

  /** The filter effect that a drag triggers changes nothing more. */
  lemma DragThenEffect(st: PageState, source: nat, dest: nat)
    requires Settled(st)
    requires source < |st.filtered| && dest < |st.filtered|
    ensures Settled(OnDragEnd(st, source, Some(dest)))
  {
    var r := OnDragEnd(st, source, Some(dest));
    forall i | 0 <= i < |r.tasks|
      ensures Matches(r.tasks[i], r.query)
    {
      assert r.tasks[i] in multiset(r.tasks);
      assert r.tasks[i] in st.filtered;
    }
    FilterAll(r.tasks, (t: Task) => Matches(t, r.query));
  }

  // ----- footer -----

  /** The footer: "`completed` of `total` completed" and a row of dots. */
  datatype Footer = Footer(completed: nat, total: nat, dots: seq<bool>)

  predicate IsDone(t: Task)
  {
    t.completed
  }

  /** The number of completed tasks in `s`. */
  function CountDone(s: seq<Task>): nat
  {
    if s == [] then 0 else (if s[0].completed then 1 else 0) + CountDone(s[1..])
  }

  /** Filtering on `completed` keeps exactly the completed tasks. */
  lemma {:induction false} FilterDoneCount(s: seq<Task>)
    ensures |Filter(s, IsDone)| == CountDone(s)
  {
    if s != [] {
      FilterDoneCount(s[1..]);
    }
  }

  function Min(a: int, b: int): int
  {
    if a < b then a else b
  }

  /** The footer for the filtered list; none when the list is empty. */
  function FooterView(filtered: seq<Task>): (r: Option<Footer>)
    ensures r.None? <==> filtered == []
    ensures r.Some? ==>
      r.value.total == |filtered| && r.value.completed == CountDone(filtered) &&
      r.value.completed <= r.value.total &&
      |r.value.dots| == Min(5, |filtered|) &&
      forall i :: 0 <= i < |r.value.dots| ==> (r.value.dots[i] <==> i < r.value.completed)
  {
    if filtered == [] then None
    else
      FilterDoneCount(filtered);
      var done := |Filter(filtered, IsDone)|;
      Some(Footer(done, |filtered|, seq(Min(5, |filtered|), i => i < done)))
  }

  /** The completed count is the number of completed tasks: all of them when
      every task is done, none when no task is. */
  lemma FooterCountExtremes(filtered: seq<Task>)
    requires filtered != []
    ensures (forall i :: 0 <= i < |filtered| ==> filtered[i].completed) ==>
      FooterView(filtered).value.completed == |filtered|
    ensures (forall i :: 0 <= i < |filtered| ==> !filtered[i].completed) ==>
      FooterView(filtered).value.completed == 0
  {
    if forall i :: 0 <= i < |filtered| ==> filtered[i].completed {
      FilterAll(filtered, IsDone);
    }
    if forall i :: 0 <= i < |filtered| ==> !filtered[i].completed {
      FilterNone(filtered, IsDone);
    }
  }

  /** The filled dots come first: min(completed, dots) filled, then empty ones. */
  lemma FooterDotsFilledFirst(filtered: seq<Task>)
    requires filtered != []
    ensures var f := FooterView(filtered).value;
      var k := Min(f.completed, |f.dots|);
      f.dots == seq(k, _ => true) + seq(|f.dots| - k, _ => false)
  {
  }
}
