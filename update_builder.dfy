/** The partial-update statement of `TaskRepository::update`: which
    `column = ?` assignments a given `UpdateTask` produces, the SQL text and
    bind list the query builder accumulates for them. */
module UpdateBuilder {
  import opened TaskModel

  /** A value bound to a `?` placeholder. Dates are bound as timestamps;
      statuses and priorities as their stored names. */
  datatype SqlValue = Text(text: string) | Integer(number: int) | Timestamp(at: int) | Null

  /** The columns an update may assign, in the order `update` tests them. */
  datatype Column = TitleColumn | DescriptionColumn | StatusColumn | PriorityColumn | DueDateColumn

  function ColumnName(c: Column): string {
    match c
    case TitleColumn => "title"
    case DescriptionColumn => "description"
    case StatusColumn => "status"
    case PriorityColumn => "priority"
    case DueDateColumn => "due_date"
  }

  function ColumnRank(c: Column): nat {
    match c
    case TitleColumn => 0
    case DescriptionColumn => 1
    case StatusColumn => 2
    case PriorityColumn => 3
    case DueDateColumn => 4
  }

  /** One `column = ?` clause together with the value bound to its `?`. */
  datatype Assignment = Assignment(column: Column, value: SqlValue)

  /** Whether `u` supplies the field stored in column `c`. */
  predicate Supplies(u: UpdateTask, c: Column) {
    match c
    case TitleColumn => u.title.Some?
    case DescriptionColumn => u.description.Some?
    case StatusColumn => u.status.Some?
    case PriorityColumn => u.priority.Some?
    case DueDateColumn => u.dueDate.Some?
  }

  /** The value `update` binds for a supplied column. */
  function SuppliedValue(u: UpdateTask, c: Column): SqlValue
    requires Supplies(u, c)
  {
    match c
    case TitleColumn => Text(u.title.value)
    case DescriptionColumn => Text(u.description.value)
    case StatusColumn => Text(StatusName(u.status.value))
    case PriorityColumn => Text(PriorityName(u.priority.value))
    case DueDateColumn => Timestamp(u.dueDate.value)
  }

  /** The assignment one `if let` block of `update` contributes: one clause
      when the field is supplied, nothing otherwise. */
  function Piece(u: UpdateTask, c: Column): seq<Assignment> {
    if Supplies(u, c) then [Assignment(c, SuppliedValue(u, c))] else []
  }

  /** The assignments for the fields `u` supplies, in the order `update`
      tests them. A due date is assigned only when one is given. */
  function Assignments(u: UpdateTask): seq<Assignment> {
    Piece(u, TitleColumn) + Piece(u, DescriptionColumn) + Piece(u, StatusColumn)
      + Piece(u, PriorityColumn) + Piece(u, DueDateColumn)
  }

  /** The column of each assignment, in order. */
  function Columns(assigns: seq<Assignment>): (cs: seq<Column>)
    ensures |cs| == |assigns|
    ensures forall i :: 0 <= i < |assigns| ==> cs[i] == assigns[i].column
  {
    seq(|assigns|, i requires 0 <= i < |assigns| => assigns[i].column)
  }

  /** Every column an update may assign, in the order `update` tests them. */
  const ColumnOrder := [TitleColumn, DescriptionColumn, StatusColumn, PriorityColumn, DueDateColumn]

  /** The columns of `cs` that `u` supplies, in the order of `cs`. */
  function SuppliedAmong(cs: seq<Column>, u: UpdateTask): seq<Column> {
    if cs == [] then [] else Chosen(u, cs[0]) + SuppliedAmong(cs[1..], u)
  }

  /** Column `c` when `u` supplies it, nothing otherwise. */
  function Chosen(u: UpdateTask, c: Column): seq<Column> {
    if Supplies(u, c) then [c] else []
  }

  lemma PieceColumns(u: UpdateTask, c: Column)
    ensures Columns(Piece(u, c)) == Chosen(u, c)
  {
  }

  lemma ColumnsAppend(a: seq<Assignment>, b: seq<Assignment>)
    ensures Columns(a + b) == Columns(a) + Columns(b)
  {
    assert forall i :: 0 <= i < |a + b| ==> Columns(a + b)[i] == (Columns(a) + Columns(b))[i];
  }

  /** The assigned columns are the supplied ones (presence, not value,
      decides), taken in the fixed order title, description, status,
      priority, due_date. */
  lemma AssignedColumns(u: UpdateTask)
    ensures Columns(Assignments(u)) == SuppliedAmong(ColumnOrder, u)
  {
    ColumnsOfAssignments(u);
    SuppliedAmongColumnOrder(u);
  }

  /** The columns of the concatenated pieces, piece by piece. */
  lemma ColumnsOfAssignments(u: UpdateTask)
    ensures Columns(Assignments(u)) == Chosen(u, TitleColumn) + Chosen(u, DescriptionColumn)
      + Chosen(u, StatusColumn) + Chosen(u, PriorityColumn) + Chosen(u, DueDateColumn)
  {
    var t, d, s, p, due := Piece(u, TitleColumn), Piece(u, DescriptionColumn), Piece(u, StatusColumn),
      Piece(u, PriorityColumn), Piece(u, DueDateColumn);
    ColumnsAppend(t + d + s + p, due);
    ColumnsAppend(t + d + s, p);
    ColumnsAppend(t + d, s);
    ColumnsAppend(t, d);
    PieceColumns(u, TitleColumn);
    PieceColumns(u, DescriptionColumn);
    PieceColumns(u, StatusColumn);
    PieceColumns(u, PriorityColumn);
    PieceColumns(u, DueDateColumn);
  }

  /** Taking the supplied columns from the fixed order, column by column. */
  lemma SuppliedAmongColumnOrder(u: UpdateTask)
    ensures SuppliedAmong(ColumnOrder, u) == Chosen(u, TitleColumn) + Chosen(u, DescriptionColumn)
      + Chosen(u, StatusColumn) + Chosen(u, PriorityColumn) + Chosen(u, DueDateColumn)
  {
    var order := ColumnOrder;
    assert order[1..] == [DescriptionColumn, StatusColumn, PriorityColumn, DueDateColumn];
    SuppliedAmongFromDescription(u);
  }

  lemma SuppliedAmongFromDescription(u: UpdateTask)
    ensures SuppliedAmong([DescriptionColumn, StatusColumn, PriorityColumn, DueDateColumn], u)
      == Chosen(u, DescriptionColumn) + Chosen(u, StatusColumn) + Chosen(u, PriorityColumn) + Chosen(u, DueDateColumn)
  {
    var order := [DescriptionColumn, StatusColumn, PriorityColumn, DueDateColumn];
    assert order[1..] == [StatusColumn, PriorityColumn, DueDateColumn];
    SuppliedAmongFromStatus(u);
  }

  lemma SuppliedAmongFromStatus(u: UpdateTask)
    ensures SuppliedAmong([StatusColumn, PriorityColumn, DueDateColumn], u)
      == Chosen(u, StatusColumn) + Chosen(u, PriorityColumn) + Chosen(u, DueDateColumn)
  {
    var order := [StatusColumn, PriorityColumn, DueDateColumn];
    assert order[1..] == [PriorityColumn, DueDateColumn];
    SuppliedAmongFromPriority(u);
  }

  lemma SuppliedAmongFromPriority(u: UpdateTask)
    ensures SuppliedAmong([PriorityColumn, DueDateColumn], u) == Chosen(u, PriorityColumn) + Chosen(u, DueDateColumn)
  {
    var order := [PriorityColumn, DueDateColumn];
    SuppliedAmongStep(order, u);
    assert order[1..] == [DueDateColumn];
    SuppliedAmongStep(order[1..], u);
    assert order[1..][1..] == [];
    assert Chosen(u, DueDateColumn) + [] == Chosen(u, DueDateColumn);
  }

  lemma SuppliedAmongStep(cs: seq<Column>, u: UpdateTask)
    requires cs != []
    ensures SuppliedAmong(cs, u) == Chosen(u, cs[0]) + SuppliedAmong(cs[1..], u)
  {
  }

  /** A column is assigned exactly when the update supplies it. */
  lemma {:induction false} SuppliedAmongMembers(cs: seq<Column>, u: UpdateTask, c: Column)
    ensures c in SuppliedAmong(cs, u) <==> c in cs && Supplies(u, c)
    decreases |cs|
  {
    if cs != [] {
      SuppliedAmongMembers(cs[1..], u, c);
      assert c in cs <==> c == cs[0] || c in cs[1..];
    }
  }

  /** Columns in strictly increasing position of the fixed order. */
  predicate Increasing(cs: seq<Column>) {
    forall i, j :: 0 <= i < j < |cs| ==> ColumnRank(cs[i]) < ColumnRank(cs[j])
  }

  lemma ConsIncreasing(c: Column, rest: seq<Column>)
    requires Increasing(rest)
    requires forall x :: x in rest ==> ColumnRank(c) < ColumnRank(x)
    ensures Increasing([c] + rest)
  {
    var r := [c] + rest;
    forall i, j | 0 <= i < j < |r|
      ensures ColumnRank(r[i]) < ColumnRank(r[j])
    {
      assert r[j] == rest[j - 1];
      if i > 0 {
        assert r[i] == rest[i - 1];
      }
    }
  }

  /** Taking the supplied columns keeps them in the order of `cs`. */
  lemma {:induction false} SuppliedAmongOrdered(cs: seq<Column>, u: UpdateTask)
    requires Increasing(cs)
    ensures Increasing(SuppliedAmong(cs, u))
    decreases |cs|
  {
    if cs != [] {
      var tail := cs[1..];
      assert Increasing(tail) by {
        forall i, j | 0 <= i < j < |tail|
          ensures ColumnRank(tail[i]) < ColumnRank(tail[j])
        {
          assert tail[i] == cs[i + 1] && tail[j] == cs[j + 1];
        }
      }
      SuppliedAmongOrdered(tail, u);
      var rest := SuppliedAmong(tail, u);
      if Supplies(u, cs[0]) {
        forall x | x in rest
          ensures ColumnRank(cs[0]) < ColumnRank(x)
        {
          SuppliedAmongMembers(tail, u, x);
          var k :| 0 <= k < |tail| && tail[k] == x;
          assert cs[k + 1] == x;
        }
        ConsIncreasing(cs[0], rest);
      } else {
        assert SuppliedAmong(cs, u) == rest;
      }
    }
  }

  /** The assigned columns appear in strictly increasing position. */
  lemma AssignedColumnsOrdered(u: UpdateTask)
    ensures forall i, j :: 0 <= i < j < |Assignments(u)| ==>
      ColumnRank(Assignments(u)[i].column) < ColumnRank(Assignments(u)[j].column)
  {
    AssignedColumns(u);
    SuppliedAmongOrdered(ColumnOrder, u);
  }

  /** A column is assigned exactly when the update supplies it. */
  lemma AssignedIffSupplied(u: UpdateTask, c: Column)
    ensures c in Columns(Assignments(u)) <==> Supplies(u, c)
  {
    AssignedColumns(u);
    SuppliedAmongMembers(ColumnOrder, u, c);
  }

  /** An update that supplies nothing assigns no column. */
  lemma NoChangesAssignsNothing()
    ensures Assignments(NoChanges) == []
  {
  }

  // ----- rendering ---------------------------------------------------------

  const UpdatePrefix := "UPDATE tasks SET "
  const TouchClause := "updated_at = datetime('now')"
  const WhereClause := " WHERE id = ?"
  const Separator := ", "

  function Clause(a: Assignment): string {
    ColumnName(a.column) + " = " + "?"
  }

  function Clauses(assigns: seq<Assignment>): (cs: seq<string>)
    ensures |cs| == |assigns|
    ensures forall i :: 0 <= i < |assigns| ==> cs[i] == Clause(assigns[i])
  {
    if assigns == [] then [] else [Clause(assigns[0])] + Clauses(assigns[1..])
  }

  /** `parts` separated by `sep`, with no leading or trailing separator. */
  function Join(parts: seq<string>, sep: string): string {
    if parts == [] then ""
    else if |parts| == 1 then parts[0]
    else parts[0] + sep + Join(parts[1..], sep)
  }

  /** The SET list is the supplied clauses followed by the timestamp
      refresh; the statement addresses one row by id. */
  function RenderUpdate(assigns: seq<Assignment>): string {
    UpdatePrefix + Join(Clauses(assigns) + [TouchClause], Separator) + WhereClause
  }

  /** The values of the assignments, in order. */
  function Values(assigns: seq<Assignment>): (vs: seq<SqlValue>)
    ensures |vs| == |assigns|
    ensures forall i :: 0 <= i < |assigns| ==> vs[i] == assigns[i].value
  {
    if assigns == [] then [] else [assigns[0].value] + Values(assigns[1..])
  }

  /** The values bound to the placeholders: one per assignment, then the id. */
  function BoundValues(assigns: seq<Assignment>, id: int): seq<SqlValue> {
    Values(assigns) + [Integer(id)]
  }

  lemma {:induction false} JoinSnoc(parts: seq<string>, last: string, sep: string)
    ensures Join(parts + [last], sep) == if parts == [] then last else Join(parts, sep) + sep + last
    decreases |parts|
  {
    if |parts| > 1 {
      JoinSnoc(parts[1..], last, sep);
      assert (parts + [last])[1..] == parts[1..] + [last];
    } else if |parts| == 1 {
      assert (parts + [last])[1..] == [last];
    }
  }

  lemma {:induction false} JoinStartsWithFirst(parts: seq<string>, sep: string)
    requires parts != []
    ensures parts[0] <= Join(parts, sep)
    decreases |parts|
  {
    if |parts| > 1 {
      JoinStartsWithFirst(parts[1..], sep);
    }
  }

  lemma {:induction false} JoinEndsWithLast(parts: seq<string>, sep: string)
    requires parts != []
    ensures var j := Join(parts, sep); var l := parts[|parts| - 1];
      |l| <= |j| && j[|j| - |l|..] == l
    decreases |parts|
  {
    if |parts| > 1 {
      JoinEndsWithLast(parts[1..], sep);
      var j := Join(parts, sep);
      var rest := Join(parts[1..], sep);
      assert j == parts[0] + sep + rest;
      assert j[|j| - |rest|..] == rest;
    }
  }

  lemma ClausesSnoc(a: seq<Assignment>, x: Assignment)
    ensures Clauses(a + [x]) == Clauses(a) + [Clause(x)]
  {
  }

  lemma ValuesSnoc(a: seq<Assignment>, x: Assignment)
    ensures Values(a + [x]) == Values(a) + [x.value]
  {
  }

  /** Number of `?` placeholders in a text. */
  function Placeholders(s: string): nat {
    if s == [] then 0 else (if s[0] == '?' then 1 else 0) + Placeholders(s[1..])
  }

  lemma {:induction false} PlaceholdersAppend(a: string, b: string)
    ensures Placeholders(a + b) == Placeholders(a) + Placeholders(b)
    decreases |a|
  {
    if a != [] {
      PlaceholdersAppend(a[1..], b);
      assert (a + b)[0] == a[0];
      assert (a + b)[1..] == a[1..] + b;
    } else {
      assert a + b == b;
    }
  }

  lemma {:induction false} NoPlaceholders(s: string)
    requires Unmarked(s)
    ensures Placeholders(s) == 0
    decreases |s|
  {
    if s != [] {
      NoPlaceholders(s[1..]);
    }
  }

  lemma ClauseHeadUnmarked(c: Column)
    ensures Unmarked(ColumnName(c) + " = ")
  {
  }

  lemma ClausePlaceholders(a: Assignment)
    ensures Placeholders(Clause(a)) == 1
  {
    var name := ColumnName(a.column) + " = ";
    ClauseHeadUnmarked(a.column);
    NoPlaceholders(name);
    PlaceholdersAppend(name, "?");
  }

  function SumPlaceholders(parts: seq<string>): nat {
    if parts == [] then 0 else Placeholders(parts[0]) + SumPlaceholders(parts[1..])
  }

  lemma {:induction false} JoinPlaceholders(parts: seq<string>, sep: string)
    requires Placeholders(sep) == 0
    ensures Placeholders(Join(parts, sep)) == SumPlaceholders(parts)
    decreases |parts|
  {
    if |parts| > 1 {
      JoinPlaceholders(parts[1..], sep);
      var rest := Join(parts[1..], sep);
      PlaceholdersAppend(parts[0], sep);
      PlaceholdersAppend(parts[0] + sep, rest);
    } else if |parts| == 1 {
      assert parts[1..] == [];
    }
  }

  lemma {:induction false} SumPlaceholdersSnoc(parts: seq<string>, last: string)
    ensures SumPlaceholders(parts + [last]) == SumPlaceholders(parts) + Placeholders(last)
    decreases |parts|
  {
    if parts != [] {
      assert (parts + [last])[1..] == parts[1..] + [last];
      SumPlaceholdersSnoc(parts[1..], last);
    }
  }

  lemma {:induction false} ClausesPlaceholders(assigns: seq<Assignment>)
    ensures SumPlaceholders(Clauses(assigns)) == |assigns|
    decreases |assigns|
  {
    if assigns != [] {
      ClausePlaceholders(assigns[0]);
      ClausesPlaceholders(assigns[1..]);
      assert Clauses(assigns)[1..] == Clauses(assigns[1..]);
    }
  }

  /** No character of `s` is a placeholder. */
  predicate Unmarked(s: string) {
    forall i :: 0 <= i < |s| ==> s[i] != '?'
  }

  lemma PrefixUnmarked() ensures Unmarked(UpdatePrefix) {
  }

  lemma SeparatorUnmarked() ensures Unmarked(Separator) {
  }

  lemma TouchUnmarked() ensures Unmarked(TouchClause) {
  }

  lemma WhereText() ensures WhereClause == " WHERE id = " + "?" && Unmarked(" WHERE id = ") {
  }

  lemma PrefixPlaceholders() ensures Placeholders(UpdatePrefix) == 0 {
    PrefixUnmarked();
    NoPlaceholders(UpdatePrefix);
  }

  lemma SeparatorPlaceholders() ensures Placeholders(Separator) == 0 {
    SeparatorUnmarked();
    NoPlaceholders(Separator);
  }

  lemma TouchPlaceholders() ensures Placeholders(TouchClause) == 0 {
    TouchUnmarked();
    NoPlaceholders(TouchClause);
  }

  lemma WherePlaceholders() ensures Placeholders(WhereClause) == 1 {
    WhereText();
    NoPlaceholders(" WHERE id = ");
    PlaceholdersAppend(" WHERE id = ", "?");
  }

  lemma SetListPlaceholders(assigns: seq<Assignment>)
    ensures Placeholders(Join(Clauses(assigns) + [TouchClause], Separator)) == |assigns|
  {
    SeparatorPlaceholders();
    TouchPlaceholders();
    JoinPlaceholders(Clauses(assigns) + [TouchClause], Separator);
    SumPlaceholdersSnoc(Clauses(assigns), TouchClause);
    ClausesPlaceholders(assigns);
  }

  lemma {:induction false} RenderedSetListStart(assigns: seq<Assignment>)
    ensures (if assigns == [] then TouchClause else Clause(assigns[0])) <= RenderUpdate(assigns)[|UpdatePrefix|..]
  {
    var parts := Clauses(assigns) + [TouchClause];
    var joined := Join(parts, Separator);
    assert RenderUpdate(assigns)[|UpdatePrefix|..] == joined + WhereClause;
    JoinStartsWithFirst(parts, Separator);
  }

  lemma {:induction false} RenderedEnding(assigns: seq<Assignment>)
    ensures var s := RenderUpdate(assigns); var tail := TouchClause + WhereClause;
      |tail| <= |s| && s[|s| - |tail|..] == tail
  {
    var parts := Clauses(assigns) + [TouchClause];
    assert RenderUpdate(assigns) == UpdatePrefix + Join(parts, Separator) + WhereClause;
    JoinedEnding(UpdatePrefix, parts, Separator, WhereClause);
    assert parts[|parts| - 1] == TouchClause;
  }

  /** Text joined from parts and followed by `w` ends with the last part
      and `w`. */
  lemma JoinedEnding(a: string, parts: seq<string>, sep: string, w: string)
    requires parts != []
    ensures var s := a + Join(parts, sep) + w; var tail := parts[|parts| - 1] + w;
      |tail| <= |s| && s[|s| - |tail|..] == tail
  {
    JoinEndsWithLast(parts, sep);
    SuffixThroughConcat(a, Join(parts, sep), parts[|parts| - 1], w);
  }

  /** A suffix of the middle part stays a suffix once a tail is appended. */
  lemma SuffixThroughConcat(a: string, mid: string, last: string, w: string)
    requires |last| <= |mid| && mid[|mid| - |last|..] == last
    ensures var s := a + mid + w; |last + w| <= |s| && s[|s| - |last + w|..] == last + w
  {
    var s := a + mid + w;
    assert s[|s| - |last + w|..] == mid[|mid| - |last|..] + w;
  }

  lemma {:induction false} RenderedPlaceholders(assigns: seq<Assignment>, id: int)
    ensures Placeholders(RenderUpdate(assigns)) == |BoundValues(assigns, id)|
  {
    var joined := Join(Clauses(assigns) + [TouchClause], Separator);
    SetListPlaceholders(assigns);
    PrefixPlaceholders();
    WherePlaceholders();
    ThreePartPlaceholders(UpdatePrefix, joined, WhereClause);
  }

  lemma ThreePartPlaceholders(a: string, b: string, c: string)
    ensures Placeholders(a + b + c) == Placeholders(a) + Placeholders(b) + Placeholders(c)
  {
    PlaceholdersAppend(a, b);
    PlaceholdersAppend(a + b, c);
  }

  /** The shape of every statement `update` issues: it begins with
      `UPDATE tasks SET `; its SET list begins with the first supplied
      column's clause, or with the timestamp clause when none is supplied,
      so there is no leading separator; the list always ends with
      `updated_at = datetime('now')`, followed by ` WHERE id = ?`; and it
      has one placeholder per bound value. */
  lemma RenderedShape(assigns: seq<Assignment>, id: int)
    ensures UpdatePrefix <= RenderUpdate(assigns)
    ensures (if assigns == [] then TouchClause else Clause(assigns[0])) <= RenderUpdate(assigns)[|UpdatePrefix|..]
    ensures var s := RenderUpdate(assigns); var tail := TouchClause + WhereClause;
      |tail| <= |s| && s[|s| - |tail|..] == tail
    ensures Placeholders(RenderUpdate(assigns)) == |BoundValues(assigns, id)|
  {
    RenderedSetListStart(assigns);
    RenderedEnding(assigns);
    RenderedPlaceholders(assigns, id);
  }

  /** The statement issued for an update that supplies nothing. */
  lemma NoChangesStatement()
    ensures RenderUpdate(Assignments(NoChanges)) == UpdatePrefix + TouchClause + WhereClause
  {
    assert Assignments(NoChanges) == [];
    assert Clauses([]) + [TouchClause] == [TouchClause];
  }

  // ----- the builder -------------------------------------------------------

  /** The driver's query builder: SQL text grown piece by piece, and the
      values bound to its placeholders. */
  class QueryBuilder {
    var sql: string
    var args: seq<SqlValue>

    constructor (init: string)
      ensures sql == init && args == []
    {
      sql := init;
      args := [];
    }

    /** Appends raw SQL text. */
    method Push(text: string)
      modifies this
      ensures sql == old(sql) + text && args == old(args)
    {
      sql := sql + text;
    }

    /** Appends a placeholder and binds `v` to it. */
    method PushBind(v: SqlValue)
      modifies this
      ensures sql == old(sql) + "?" && args == old(args) + [v]
    {
      sql := sql + "?";
      args := args + [v];
    }
  }

  /** What the builder holds once the assignments `done` have been pushed. */
  ghost predicate Holds(qb: QueryBuilder, hasUpdates: bool, done: seq<Assignment>)
    reads qb
  {
    && qb.sql == UpdatePrefix + Join(Clauses(done), Separator)
    && qb.args == Values(done)
    && hasUpdates == (done != [])
  }

  /** Pushing one more `column = ?` clause, preceded by a separator when
      another clause came before it. */
  method PushAssignment(qb: QueryBuilder, hasUpdates: bool, ghost done: seq<Assignment>, a: Assignment)
    returns (hasUpdates': bool)
    requires Holds(qb, hasUpdates, done)
    modifies qb
    ensures Holds(qb, hasUpdates', done + [a])
  {
    ghost var joined := Join(Clauses(done), Separator);
    ghost var lead := if hasUpdates then joined + Separator else joined;
    if hasUpdates {
      qb.Push(Separator);
      Associative(UpdatePrefix, joined, Separator);
    }
    var name := ColumnName(a.column) + " = ";
    qb.Push(name);
    qb.PushBind(a.value);
    hasUpdates' := true;
    Associative(UpdatePrefix + lead, name, "?");
    Associative(UpdatePrefix, lead, Clause(a));
    JoinSnoc(Clauses(done), Clause(a), Separator);
    ClausesSnoc(done, a);
    ValuesSnoc(done, a);
  }

  lemma Associative(x: string, y: string, z: string)
    ensures x + y + z == x + (y + z)
  {
  }

  /** The dynamic UPDATE statement for task `id`: its text is the rendering
      of the supplied assignments and the bind list is their values followed
      by the id. */
  method BuildUpdate(id: int, u: UpdateTask) returns (sql: string, args: seq<SqlValue>)
    ensures sql == RenderUpdate(Assignments(u))
    ensures args == BoundValues(Assignments(u), id)
  {
    var qb := new QueryBuilder(UpdatePrefix);
    var hasUpdates := false;
    assert Holds(qb, hasUpdates, []);
    hasUpdates := PushIfSupplied(qb, hasUpdates, [], u, TitleColumn);
    ghost var done := Piece(u, TitleColumn);
    hasUpdates := PushIfSupplied(qb, hasUpdates, done, u, DescriptionColumn);
    done := done + Piece(u, DescriptionColumn);
    hasUpdates := PushIfSupplied(qb, hasUpdates, done, u, StatusColumn);
    done := done + Piece(u, StatusColumn);
    hasUpdates := PushIfSupplied(qb, hasUpdates, done, u, PriorityColumn);
    done := done + Piece(u, PriorityColumn);
    hasUpdates := PushIfSupplied(qb, hasUpdates, done, u, DueDateColumn);
    done := done + Piece(u, DueDateColumn);
    FinishUpdate(qb, hasUpdates, done, id);
    sql, args := qb.sql, qb.args;
  }

  /** One `if let Some(..)` block of `update`: when `u` supplies column `c`,
      push its clause and bind its value (a status or priority is bound as
      its stored name, a due date as a timestamp). */
  method PushIfSupplied(qb: QueryBuilder, hasUpdates: bool, ghost done: seq<Assignment>, u: UpdateTask, c: Column)
    returns (hasUpdates': bool)
    requires Holds(qb, hasUpdates, done)
    modifies qb
    ensures Holds(qb, hasUpdates', done + Piece(u, c))
  {
    if Supplies(u, c) {
      hasUpdates' := PushAssignment(qb, hasUpdates, done, Assignment(c, SuppliedValue(u, c)));
    } else {
      hasUpdates' := hasUpdates;
      assert done + Piece(u, c) == done;
    }
  }

  /** Closes the SET list with the timestamp refresh (after a separator when
      some column came before it) and appends the WHERE clause with the id. */
  method FinishUpdate(qb: QueryBuilder, hasUpdates: bool, ghost done: seq<Assignment>, id: int)
    requires Holds(qb, hasUpdates, done)
    modifies qb
    ensures qb.sql == RenderUpdate(done) && qb.args == BoundValues(done, id)
  {
    ghost var joined := Join(Clauses(done), Separator);
    ghost var lead := if hasUpdates then joined + Separator else joined;
    if hasUpdates {
      qb.Push(Separator);
      Associative(UpdatePrefix, joined, Separator);
    }
    qb.Push(TouchClause);
    qb.Push(" WHERE id = ");
    qb.PushBind(Integer(id));
    Associative(UpdatePrefix, lead, TouchClause);
    Associative(UpdatePrefix + (lead + TouchClause), " WHERE id = ", "?");
    JoinSnoc(Clauses(done), TouchClause, Separator);
  }
}
