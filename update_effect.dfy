/** What executing the statement built by `TaskRepository::update` does to
    the matched row: every `column = ?` assignment stores its bound value,
    `updated_at` is set to the statement's clock reading, and re-reading the
    row decodes what was stored. Proved equal to the field-wise patch the
    method documents ("only provided fields will be updated"). */
module UpdateEffect {
  import opened Wrappers
  import opened TaskModel
  import opened UpdateBuilder

  /** Storing one bound value in its column of `row`, as seen when the row is
      read back. Status and priority are stored as text and decoded by name.
      A due date is a timestamp or `NULL`. Text that names no variant, and
      any value of a kind `update` never binds to that column, is treated as
      a failure (`None`); what the database would do with such a value is
      not modelled. */
  function Store(row: Task, a: Assignment): Option<Task> {
    match a.column
    case TitleColumn =>
      if a.value.Text? then Some(row.(title := a.value.text)) else None
    case DescriptionColumn =>
      if a.value.Text? then Some(row.(description := a.value.text)) else None
    case StatusColumn =>
      if a.value.Text? && ParseStatus(a.value.text).Some?
      then Some(row.(status := ParseStatus(a.value.text).value)) else None
    case PriorityColumn =>
      if a.value.Text? && ParsePriority(a.value.text).Some?
      then Some(row.(priority := ParsePriority(a.value.text).value)) else None
    case DueDateColumn =>
      if a.value.Timestamp? then Some(row.(dueDate := Some(a.value.at)))
      else if a.value.Null? then Some(row.(dueDate := None))
      else None
  }

  /** Storing the assignments of a SET list left to right. */
  function StoreAll(row: Task, assigns: seq<Assignment>): Option<Task>
    decreases |assigns|
  {
    if assigns == [] then Some(row)
    else match Store(row, assigns[0])
      case None => None
      case Some(next) => StoreAll(next, assigns[1..])
  }

  /** The effect of `UPDATE tasks SET <assigns>, updated_at = <now> WHERE id = ?`
      on the row it matches. */
  function ExecuteSet(row: Task, assigns: seq<Assignment>, now: int): Option<Task> {
    match StoreAll(row, assigns)
    case None => None
    case Some(stored) => Some(stored.(updatedAt := now))
  }

  /** The row as `update` documents it: each provided field replaces the
      stored one, every other field is kept, and the row is stamped `now`. */
  function Patched(row: Task, u: UpdateTask, now: int): (r: Task)
    ensures r.id == row.id && r.userId == row.userId && r.createdAt == row.createdAt
    ensures r.updatedAt == now
  {
    Task(row.id,
         if u.title.Some? then u.title.value else row.title,
         if u.description.Some? then u.description.value else row.description,
         if u.status.Some? then u.status.value else row.status,
         if u.priority.Some? then u.priority.value else row.priority,
         if u.dueDate.Some? then u.dueDate else row.dueDate,
         row.userId, row.createdAt, now)
  }

  lemma {:induction false} StoreAllAppend(row: Task, a: seq<Assignment>, b: seq<Assignment>)
    ensures StoreAll(row, a + b) ==
      match StoreAll(row, a)
      case None => None
      case Some(mid) => StoreAll(mid, b)
    decreases |a|
  {
    if a == [] {
      assert a + b == b;
    } else {
      assert (a + b)[0] == a[0] && (a + b)[1..] == a[1..] + b;
      match Store(row, a[0])
      case None =>
      case Some(next) => StoreAllAppend(next, a[1..], b);
    }
  }

  /** One field of `u` applied to `row`, when `u` supplies it. */
  function PatchColumn(row: Task, u: UpdateTask, c: Column): Task {
    match c
    case TitleColumn => if u.title.Some? then row.(title := u.title.value) else row
    case DescriptionColumn => if u.description.Some? then row.(description := u.description.value) else row
    case StatusColumn => if u.status.Some? then row.(status := u.status.value) else row
    case PriorityColumn => if u.priority.Some? then row.(priority := u.priority.value) else row
    case DueDateColumn => if u.dueDate.Some? then row.(dueDate := u.dueDate) else row
  }

  /** Storing the clause of one column always succeeds: the bound text of a
      status or priority is a name that reads back as that variant. */
  lemma StorePiece(row: Task, u: UpdateTask, c: Column)
    ensures StoreAll(row, Piece(u, c)) == Some(PatchColumn(row, u, c))
  {
    if Supplies(u, c) {
      var a := Assignment(c, SuppliedValue(u, c));
      assert StoreAll(row, [a]) == Store(row, a) by {
        assert [a][1..] == [];
      }
      match c
      case StatusColumn =>
        StatusRoundTrip(u.status.value);
        assert Store(row, a) == Some(row.(status := u.status.value));
      case PriorityColumn =>
        PriorityRoundTrip(u.priority.value);
        assert Store(row, a) == Some(row.(priority := u.priority.value));
      case _ =>
    }
  }

  /** Executing the rendered SET list has exactly the documented effect:
      the statement never fails to read back, and the row it leaves is the
      field-wise patch. */
  lemma ExecuteSetIsPatch(row: Task, u: UpdateTask, now: int)
    ensures ExecuteSet(row, Assignments(u), now) == Some(Patched(row, u, now))
  {
    var t, d, s, p, due := Piece(u, TitleColumn), Piece(u, DescriptionColumn), Piece(u, StatusColumn),
      Piece(u, PriorityColumn), Piece(u, DueDateColumn);
    var r1 := PatchColumn(row, u, TitleColumn);
    var r2 := PatchColumn(r1, u, DescriptionColumn);
    var r3 := PatchColumn(r2, u, StatusColumn);
    var r4 := PatchColumn(r3, u, PriorityColumn);
    var r5 := PatchColumn(r4, u, DueDateColumn);
    StorePiece(row, u, TitleColumn);
    StorePiece(r1, u, DescriptionColumn);
    StorePiece(r2, u, StatusColumn);
    StorePiece(r3, u, PriorityColumn);
    StorePiece(r4, u, DueDateColumn);
    StoreAllAppend(row, t, d);
    StoreAllAppend(row, t + d, s);
    StoreAllAppend(row, t + d + s, p);
    StoreAllAppend(row, t + d + s + p, due);
    assert StoreAll(row, Assignments(u)) == Some(r5);
  }

  /** The executed statement stores every supplied field as given. */
  lemma UpdateStoresSupplied(row: Task, u: UpdateTask, now: int)
    ensures ExecuteSet(row, Assignments(u), now).Some?
    ensures var r := ExecuteSet(row, Assignments(u), now).value;
      && (u.title.Some? ==> r.title == u.title.value)
      && (u.description.Some? ==> r.description == u.description.value)
      && (u.status.Some? ==> r.status == u.status.value)
      && (u.priority.Some? ==> r.priority == u.priority.value)
      && (u.dueDate.Some? ==> r.dueDate == u.dueDate)
      && r.updatedAt == now
  {
    ExecuteSetIsPatch(row, u, now);
  }

  /** The executed statement changes no field the update does not supply,
      and never the id, owner or creation time. */
  lemma UpdateKeepsUnsupplied(row: Task, u: UpdateTask, now: int)
    ensures ExecuteSet(row, Assignments(u), now).Some?
    ensures var r := ExecuteSet(row, Assignments(u), now).value;
      && (r.title != row.title ==> u.title.Some?)
      && (r.description != row.description ==> u.description.Some?)
      && (r.status != row.status ==> u.status.Some?)
      && (r.priority != row.priority ==> u.priority.Some?)
      && (r.dueDate != row.dueDate ==> u.dueDate.Some?)
      && r.id == row.id && r.userId == row.userId && r.createdAt == row.createdAt
  {
    ExecuteSetIsPatch(row, u, now);
  }

  /** An update that supplies nothing only refreshes the timestamp. */
  lemma EmptyUpdateTouchesOnlyTimestamp(row: Task, now: int)
    ensures ExecuteSet(row, Assignments(NoChanges), now) == Some(row.(updatedAt := now))
  {
    ExecuteSetIsPatch(row, NoChanges, now);
  }

  /** No update clears a due date: a row with a due date keeps one. */
  lemma DueDateNeverCleared(row: Task, u: UpdateTask, now: int)
    requires row.dueDate.Some?
    ensures var r := ExecuteSet(row, Assignments(u), now); r.Some? && r.value.dueDate.Some?
  {
    ExecuteSetIsPatch(row, u, now);
  }
}
