/** Task domain types: the closed status and priority enumerations with the
    snake_case text under which they are stored, the derived priority order,
    the defaults, and the task row with its create and update projections.
    Timestamps and due dates are whole seconds (an `int`). */
module TaskModel {
  import opened Wrappers

  /** Progress of a task. The intended workflow is Todo -> InProgress ->
      Done; `update` accepts any status, so no order is enforced. */
  datatype TaskStatus = Todo | InProgress | Done

  /** Urgency of a task, declared from lowest to highest. */
  datatype TaskPriority = Low | Medium | High | Urgent

  /** A row of the `tasks` table. */
  datatype Task = Task(
    id: int,
    title: string,
    description: string,
    status: TaskStatus,
    priority: TaskPriority,
    dueDate: Option<int>,
    userId: int,
    createdAt: int,
    updatedAt: int)

  /** Input of `create`: everything but the id and the timestamps. */
  datatype CreateTask = CreateTask(
    title: string,
    description: string,
    status: TaskStatus,
    priority: TaskPriority,
    dueDate: Option<int>,
    userId: int)

  /** Input of `update`: each field is independently optional, and an
      absent field means "leave this column alone". */
  datatype UpdateTask = UpdateTask(
    title: Option<string>,
    description: Option<string>,
    status: Option<TaskStatus>,
    priority: Option<TaskPriority>,
    dueDate: Option<int>)

  /** The update that names no field. */
  const NoChanges := UpdateTask(None, None, None, None, None)

  function DefaultStatus(): TaskStatus {
    Todo
  }

  function DefaultPriority(): TaskPriority {
    Medium
  }

  lemma Defaults()
    ensures DefaultStatus() == Todo
    ensures DefaultPriority() == Medium
  {
  }

  // ----- snake_case text names ---------------------------------------------

  predicate IsUpper(c: char) {
    'A' <= c <= 'Z'
  }

  function ToLower(c: char): char {
    if IsUpper(c) then (c as int - 'A' as int + 'a' as int) as char else c
  }

  /** Snake-casing a variant identifier: every upper-case letter is lowered,
      and each one after the first character is preceded by an underscore.
      This is serde's `rename_all = "snake_case"` rule; sqlx's derive uses
      heck's `to_snake_case`, which treats runs of capitals differently. The
      two agree on all seven variant names, which `StatusNames` and
      `PriorityNames` spell out. */
  function SnakeCase(ident: string): string {
    if ident == [] then [] else [ToLower(ident[0])] + SnakeCaseTail(ident[1..])
  }

  function SnakeCaseTail(s: string): string {
    if s == [] then []
    else (if IsUpper(s[0]) then "_" else "") + [ToLower(s[0])] + SnakeCaseTail(s[1..])
  }

  function StatusIdent(s: TaskStatus): string {
    match s
    case Todo => "Todo"
    case InProgress => "InProgress"
    case Done => "Done"
  }

  function PriorityIdent(p: TaskPriority): string {
    match p
    case Low => "Low"
    case Medium => "Medium"
    case High => "High"
    case Urgent => "Urgent"
  }

  /** The text stored in the `status` column (and used on the wire). */
  function StatusName(s: TaskStatus): string {
    SnakeCase(StatusIdent(s))
  }

  /** The text stored in the `priority` column (and used on the wire). */
  function PriorityName(p: TaskPriority): string {
    SnakeCase(PriorityIdent(p))
  }

  /** A run without upper-case letters is kept as it is. */
  lemma {:induction false} SnakeCaseTailKeepsLower(s: string)
    requires forall i :: 0 <= i < |s| ==> 'a' <= s[i] <= 'z'
    ensures SnakeCaseTail(s) == s
    decreases |s|
  {
    if s != [] {
      SnakeCaseTailKeepsLower(s[1..]);
    }
  }

  /** A capitalised word followed by lower-case letters is lowered as a whole. */
  lemma SnakeCaseWord(ident: string)
    requires |ident| >= 1
    requires forall i :: 1 <= i < |ident| ==> 'a' <= ident[i] <= 'z'
    ensures SnakeCase(ident) == [ToLower(ident[0])] + ident[1..]
  {
    SnakeCaseTailKeepsLower(ident[1..]);
  }

  /** The stored names, written out. */
  lemma StatusNames()
    ensures StatusName(Todo) == "todo"
    ensures StatusName(InProgress) == "in_progress"
    ensures StatusName(Done) == "done"
  {
    TodoName();
    InProgressName();
    DoneName();
  }

  lemma TodoName() ensures StatusName(Todo) == "todo" {
    SnakeCaseWord("Todo");
    assert "Todo"[1..] == "odo" && ToLower('T') == 't';
  }

  lemma DoneName() ensures StatusName(Done) == "done" {
    SnakeCaseWord("Done");
    assert "Done"[1..] == "one" && ToLower('D') == 'd';
  }

  lemma InProgressName()
    ensures StatusName(InProgress) == "in_progress"
  {
    var ident := StatusIdent(InProgress);
    assert ident[0] == 'I' && ident[1..] == "nProgress";
    assert SnakeCase(ident) == [ToLower(ident[0])] + SnakeCaseTail(ident[1..]);
    NProgressTail();
    assert ToLower('I') == 'i';
    assert ['i'] + "n_progress" == "in_progress";
  }

  lemma NProgressTail()
    ensures SnakeCaseTail("nProgress") == "n_progress"
  {
    var tail := "nProgress";
    assert tail[0] == 'n' && tail[1..] == "Progress";
    ProgressTail();
    assert ToLower('n') == 'n' && !IsUpper('n');
  }

  lemma ProgressTail()
    ensures SnakeCaseTail("Progress") == "_progress"
  {
    CapitalisedTail("Progress");
    assert "Progress"[1..] == "rogress" && ToLower('P') == 'p';
  }

  /** Inside an identifier, a capitalised word starts a new `_`-separated
      lower-case word. */
  lemma CapitalisedTail(s: string)
    requires |s| >= 1 && IsUpper(s[0])
    requires forall i :: 1 <= i < |s| ==> 'a' <= s[i] <= 'z'
    ensures SnakeCaseTail(s) == "_" + [ToLower(s[0])] + s[1..]
  {
    SnakeCaseTailKeepsLower(s[1..]);
  }

  lemma PriorityNames()
    ensures PriorityName(Low) == "low"
    ensures PriorityName(Medium) == "medium"
    ensures PriorityName(High) == "high"
    ensures PriorityName(Urgent) == "urgent"
  {
    LowName();
    MediumName();
    HighName();
    UrgentName();
  }

  lemma LowName() ensures PriorityName(Low) == "low" {
    SnakeCaseWord("Low");
    assert "Low"[1..] == "ow" && ToLower('L') == 'l';
  }

  lemma MediumName() ensures PriorityName(Medium) == "medium" {
    SnakeCaseWord("Medium");
    assert "Medium"[1..] == "edium" && ToLower('M') == 'm';
  }

  lemma HighName() ensures PriorityName(High) == "high" {
    SnakeCaseWord("High");
    assert "High"[1..] == "igh" && ToLower('H') == 'h';
  }

  lemma UrgentName() ensures PriorityName(Urgent) == "urgent" {
    SnakeCaseWord("Urgent");
    assert "Urgent"[1..] == "rgent" && ToLower('U') == 'u';
  }

  /** Decoding a stored status: the decoder accepts exactly the three
      snake_case names. */
  function ParseStatus(t: string): Option<TaskStatus> {
    if t == "todo" then Some(Todo)
    else if t == "in_progress" then Some(InProgress)
    else if t == "done" then Some(Done)
    else None
  }

  /** Decoding a stored priority: the decoder accepts exactly the four
      snake_case names. */
  function ParsePriority(t: string): Option<TaskPriority> {
    if t == "low" then Some(Low)
    else if t == "medium" then Some(Medium)
    else if t == "high" then Some(High)
    else if t == "urgent" then Some(Urgent)
    else None
  }

  /** Distinct statuses are stored under distinct names. */
  lemma StatusNameInjective(a: TaskStatus, b: TaskStatus)
    ensures StatusName(a) == StatusName(b) ==> a == b
  {
    StatusNames();
  }

  /** Distinct priorities are stored under distinct names. */
  lemma PriorityNameInjective(a: TaskPriority, b: TaskPriority)
    ensures PriorityName(a) == PriorityName(b) ==> a == b
  {
    PriorityNames();
  }

  /** Reading back a stored status gives the status. */
  lemma StatusRoundTrip(s: TaskStatus)
    ensures ParseStatus(StatusName(s)) == Some(s)
  {
    StatusNames();
    StatusDecoding();
  }

  /** Any text that is read as a status is the name of that status. */
  lemma StatusDecodesOnlyNames(t: string)
    ensures ParseStatus(t).Some? ==> StatusName(ParseStatus(t).value) == t
  {
    StatusNames();
  }

  lemma StatusDecoding()
    ensures ParseStatus("todo") == Some(Todo)
    ensures ParseStatus("in_progress") == Some(InProgress)
    ensures ParseStatus("done") == Some(Done)
  {
    assert "in_progress"[0] != "todo"[0];
    assert "done"[0] != "todo"[0] && "done"[0] != "in_progress"[0];
  }

  /** Reading back a stored priority gives the priority. */
  lemma PriorityRoundTrip(p: TaskPriority)
    ensures ParsePriority(PriorityName(p)) == Some(p)
  {
    PriorityNames();
  }

  /** Exactly the four names are read as priorities. */
  lemma PriorityDecodesOnlyNames(t: string)
    ensures ParsePriority(t).Some? <==> t in {"low", "medium", "high", "urgent"}
  {
  }

  // ----- priority order ----------------------------------------------------

  /** Position in the declaration, which is what the derived `Ord` compares. */
  function PriorityRank(p: TaskPriority): nat {
    match p
    case Low => 0
    case Medium => 1
    case High => 2
    case Urgent => 3
  }

  predicate PriorityLess(a: TaskPriority, b: TaskPriority) {
    PriorityRank(a) < PriorityRank(b)
  }

  /** Low < Medium < High < Urgent, and `PriorityLess` is a strict total
      order: irreflexive, transitive, and any two distinct priorities are
      comparable. */
  lemma PriorityTotalOrder()
    ensures PriorityLess(Low, Medium) && PriorityLess(Medium, High) && PriorityLess(High, Urgent)
    ensures forall a :: !PriorityLess(a, a)
    ensures forall a, b, c :: PriorityLess(a, b) && PriorityLess(b, c) ==> PriorityLess(a, c)
    ensures forall a, b :: a != b ==> PriorityLess(a, b) || PriorityLess(b, a)
  {
    forall a: TaskPriority, b: TaskPriority | a != b
      ensures PriorityLess(a, b) || PriorityLess(b, a)
    {
      assert PriorityRank(a) != PriorityRank(b);
    }
  }
}
