/**
 The two tables of the to-do database as immutable values. The table
 definitions are not modelled; the shape below follows the columns the
 router's SQL reads and writes.
 */
module Tasks {
  import opened Wrappers

  const ACTIVE: string := "active"
  const COMPLETED: string := "completed"

  /** One row of the Task table. `due` is an epoch-millisecond timestamp and
      `status` is the raw column text ("active" or "completed" in practice). */
  datatype Task = Task(
    id: int,
    name: string,
    description: string,
    priority: int,
    due: int,
    category: Option<string>,
    status: string)

  /** The whole database: Task rows in storage order, the Category table's
      names, and the next id an AUTOINCREMENT key would hand out. */
  datatype Store = Store(tasks: seq<Task>, categories: set<string>, nextId: int)

  /** The database before anything has been created. */
  function EmptyStore(): Store
  {
    Store([], {}, 1)
  }

  /** Task ids are positive, pairwise distinct, and below the next id to be
      issued (what an INTEGER PRIMARY KEY AUTOINCREMENT column guarantees). */
  predicate Valid(s: Store)
  {
    0 < s.nextId && IdsBelow(s.tasks, s.nextId) && DistinctIds(s.tasks)
  }

  predicate IdsBelow(ts: seq<Task>, bound: int)
  {
    forall i :: 0 <= i < |ts| ==> 0 < ts[i].id < bound
  }

  predicate DistinctIds(ts: seq<Task>)
  {
    forall i, j :: 0 <= i < j < |ts| ==> ts[i].id != ts[j].id
  }

  /** Some row has this id. */
  predicate HasId(ts: seq<Task>, id: int)
  {
    exists i :: 0 <= i < |ts| && ts[i].id == id
  }

  lemma EmptyStoreIsValid()
    ensures Valid(EmptyStore())
  {
  }
}
