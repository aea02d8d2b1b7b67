/** The task record and the request shapes shared by the server and the client
    (server/types.ts), and the lookup by id that both sides use. */
module Tasks {

  /** An optional field of a JSON body: absent, or present with a value. */
  datatype Option<T> = None | Some(value: T)

  /** A task as stored by the server and shown by the client. */
  datatype Task = Task(id: string, title: string, completed: bool)

  /** The body of a create request. The type declares `title` required, but the
      body arrives as untyped JSON, so the field may be missing at run time. */
  datatype CreateTodoInput = CreateTodoInput(title: Option<string>, completed: Option<bool>)

  /** The body of an update request: every field optional, and no `id`. */
  datatype UpdateTodoInput = UpdateTodoInput(title: Option<string>, completed: Option<bool>)

  /** Some task in `s` carries `id`. */
  predicate HasId(s: seq<Task>, id: string)
  {
    exists i :: 0 <= i < |s| && s[i].id == id
  }

  /** No two tasks in `s` share an id. Nothing in the code enforces this. */
  predicate UniqueIds(s: seq<Task>)
  {
    forall i, j :: 0 <= i < j < |s| ==> s[i].id != s[j].id
  }

  /** The index of the first task whose id is `id` (`findIndex` / `find`). */
  function IndexOfId(s: seq<Task>, id: string): (r: Option<nat>)
    ensures r.None? <==> !HasId(s, id)
    ensures r.Some? ==> r.value < |s| && s[r.value].id == id
    ensures r.Some? ==> forall j :: 0 <= j < r.value ==> s[j].id != id
  {
    if |s| == 0 then None
    else if s[0].id == id then Some(0)
    else match IndexOfId(s[1..], id)
      case None => None
      case Some(k) => Some(k + 1)
  }

  /** Under unique ids, the first index with `id` is the only one. */
  lemma IndexOfIdUnique(s: seq<Task>, id: string, j: nat)
    requires UniqueIds(s)
    requires j < |s| && s[j].id == id
    ensures IndexOfId(s, id) == Some(j)
  {
  }
}
