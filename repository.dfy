/** `TaskRepository` over an in-memory `tasks` table: inserting, reading,
    partially updating and deleting rows, with the errors the repository
    reports. Database failures are not modelled, so every operation either
    succeeds or reports `TaskNotFound`. */
module TaskRepository {
  import opened Wrappers
  import opened TaskModel
  import opened Errors
  import opened UpdateBuilder
  import opened UpdateEffect
  import opened TaskListing

  class TaskTable {
    /** The stored rows, by primary key. */
    var rows: Table
    /** A bound above every stored id, from which an insert draws a fresh
        id. */
    var nextId: int

    ghost predicate Valid()
      reads this
    {
      nextId >= 1 && forall k :: k in rows ==> 0 < k < nextId
    }

    constructor ()
      ensures Valid() && rows == map[] && nextId == 1
    {
      rows := map[];
      nextId := 1;
    }

    /** `SELECT * FROM tasks WHERE id = ?`, first row or `TaskNotFound`. */
    function FindById(id: int): (r: Result<Task>)
      reads this
      ensures r.Ok? <==> id in rows
      ensures r.Ok? ==> r.value == rows[id] && r.value.id == id
      ensures r.Err? ==> r.error == TaskNotFound(id)
    {
      ByIdListing(rows, id);
      var found := Select(rows, ById(id));
      if found == [] then Err(TaskNotFound(id)) else Ok(found[0])
    }

    /** The user's tasks, newest first; an empty list when there are none. */
    function FindByUser(user: int): (r: Result<seq<Task>>)
      reads this
      ensures r.Ok? && IsListing(rows, ByUser(user), r.value)
      ensures forall t :: t in r.value <==> t.id in rows && rows[t.id] == t && t.userId == user
    {
      var found := Select(rows, ByUser(user));
      assert forall t :: t in found <==> t.id in rows && rows[t.id] == t && t.userId == user by {
        forall t {
          ListedIffMatching(rows, ByUser(user), found, t);
        }
      }
      Ok(found)
    }

    /** The user's tasks with the given status, newest first. */
    function FindByUserAndStatus(user: int, status: TaskStatus): (r: Result<seq<Task>>)
      reads this
      ensures r.Ok? && IsListing(rows, ByUserAndStatus(user, status), r.value)
      ensures forall t :: t in r.value <==>
        t.id in rows && rows[t.id] == t && t.userId == user && t.status == status
    {
      var f := ByUserAndStatus(user, status);
      var found := Select(rows, f);
      assert forall t :: t in found <==> t.id in rows && rows[t.id] == t && t.userId == user && t.status == status by {
        forall t
          ensures t in found <==> t.id in rows && rows[t.id] == t && Matches(t, f)
          ensures Matches(t, f) <==> t.userId == f.userId && t.status == f.status
        {
          ListedIffMatching(rows, f, found, t);
          MatchesFields(t, f);
        }
      }
      Ok(found)
    }

    /** The user's tasks with the given priority, newest first. */
    function FindByUserAndPriority(user: int, priority: TaskPriority): (r: Result<seq<Task>>)
      reads this
      ensures r.Ok? && IsListing(rows, ByUserAndPriority(user, priority), r.value)
      ensures forall t :: t in r.value <==>
        t.id in rows && rows[t.id] == t && t.userId == user && t.priority == priority
    {
      var f := ByUserAndPriority(user, priority);
      var found := Select(rows, f);
      assert forall t :: t in found <==> t.id in rows && rows[t.id] == t && t.userId == user && t.priority == priority by {
        forall t
          ensures t in found <==> t.id in rows && rows[t.id] == t && Matches(t, f)
          ensures Matches(t, f) <==> t.userId == f.userId && t.priority == f.priority
        {
          ListedIffMatching(rows, f, found, t);
          MatchesFields(t, f);
        }
      }
      Ok(found)
    }

    /** `SELECT COUNT(*) FROM tasks WHERE user_id = ?`. */
    function CountByUser(user: int): (r: Result<int>)
      reads this
      ensures r.Ok? && r.value == |MatchingIds(rows, ByUser(user))|
      ensures r.value == |FindByUser(user).value|
    {
      ListingLength(rows, ByUser(user));
      Ok(Count(rows, ByUser(user)))
    }

    /** Whether a row has both the id and the owner; never `TaskNotFound`. */
    function BelongsToUser(taskId: int, user: int): (r: Result<bool>)
      reads this
      ensures r.Ok? && (r.value <==> taskId in rows && rows[taskId].userId == user)
    {
      ByIdAndUserMatches(rows, taskId, user);
      Ok(Count(rows, ByIdAndUser(taskId, user)) > 0)
    }

    /** `INSERT ... RETURNING *`: the new row gets a fresh id and is stamped
        `now` on creation and update. */
    method Create(t: CreateTask, now: int) returns (r: Result<Task>)
      requires Valid()
      modifies this
      ensures Valid()
      ensures r.Ok? && r.value.id !in old(rows) && rows == old(rows)[r.value.id := r.value]
      ensures r.value.title == t.title && r.value.description == t.description
      ensures r.value.status == t.status && r.value.priority == t.priority
      ensures r.value.dueDate == t.dueDate && r.value.userId == t.userId
      ensures r.value.createdAt == now && r.value.updatedAt == now
      ensures FindById(r.value.id) == Ok(r.value)
    {
      var row := Task(nextId, t.title, t.description, t.status, t.priority, t.dueDate, t.userId, now, now);
      rows := rows[nextId := row];
      nextId := nextId + 1;
      r := Ok(row);
    }

    /** Checks the row exists, builds the partial `UPDATE` for the supplied
        fields, executes it on the row `WHERE id = ?` selects, and reads the
        row back. */
    method Update(id: int, u: UpdateTask, now: int) returns (r: Result<Task>)
      requires Valid()
      modifies this
      ensures Valid() && nextId == old(nextId)
      ensures id !in old(rows) ==> r == Err(TaskNotFound(id)) && rows == old(rows)
      ensures id in old(rows) ==>
        rows == old(rows)[id := Patched(old(rows)[id], u, now)] && r == Ok(rows[id])
    {
      var existing := FindById(id);
      if existing.Err? {
        return Err(existing.error);
      }
      var sql, args := BuildUpdate(id, u);
      var key := args[|args| - 1];
      assert key == Integer(id);
      ExecuteSetIsPatch(rows[key.number], u, now);
      var stored := ExecuteSet(rows[key.number], Assignments(u), now);
      rows := rows[key.number := stored.value];
      r := FindById(id);
    }

    /** `DELETE FROM tasks WHERE id = ?`; `TaskNotFound` when it removes
        no row. */
    method Delete(id: int) returns (r: Result<()>)
      requires Valid()
      modifies this
      ensures Valid() && nextId == old(nextId)
      ensures rows == old(rows) - {id}
      ensures r.Err? <==> id !in old(rows)
      ensures r.Err? ==> r.error == TaskNotFound(id)
      ensures FindById(id) == Err(TaskNotFound(id))
    {
      ByIdMatches(rows, id);
      var affected := Count(rows, ById(id));
      rows := rows - {id};
      if affected == 0 {
        return Err(TaskNotFound(id));
      }
      r := Ok(());
    }
  }
}
