/** The read queries of `TaskRepository` over an in-memory `tasks` table:
    the WHERE filters, `SELECT * ... ORDER BY created_at DESC`, and
    `SELECT COUNT(*)`. The table maps each primary key to its row. */
module TaskListing {
  import opened TaskModel

  /** The `tasks` table: every row is stored under its own id. */
  type Table = m: map<int, Task> | forall k :: k in m ==> m[k].id == k
    witness map[]

  /** The WHERE clauses the repository queries use. Status and priority are
      compared as the stored text. */
  datatype TaskFilter =
    | ById(id: int)
    | ByUser(userId: int)
    | ByUserAndStatus(userId: int, status: TaskStatus)
    | ByUserAndPriority(userId: int, priority: TaskPriority)
    | ByIdAndUser(id: int, userId: int)

  predicate Matches(t: Task, f: TaskFilter) {
    match f
    case ById(id) => t.id == id
    case ByUser(u) => t.userId == u
    case ByUserAndStatus(u, s) => t.userId == u && StatusName(t.status) == StatusName(s)
    case ByUserAndPriority(u, p) => t.userId == u && PriorityName(t.priority) == PriorityName(p)
    case ByIdAndUser(id, u) => t.id == id && t.userId == u
  }

  /** Comparing stored names is comparing the variants. */
  lemma MatchesFields(t: Task, f: TaskFilter)
    ensures f.ByUserAndStatus? ==> (Matches(t, f) <==> t.userId == f.userId && t.status == f.status)
    ensures f.ByUserAndPriority? ==> (Matches(t, f) <==> t.userId == f.userId && t.priority == f.priority)
  {
    if f.ByUserAndStatus? {
      StatusNameInjective(t.status, f.status);
    }
    if f.ByUserAndPriority? {
      PriorityNameInjective(t.priority, f.priority);
    }
  }

  /** The ids of the rows the filter selects. */
  ghost function MatchingIds(m: Table, f: TaskFilter): set<int> {
    set k | k in m && Matches(m[k], f)
  }

  /** The rows the filter selects. */
  ghost function MatchingRows(m: Table, f: TaskFilter): set<Task> {
    set k | k in m && Matches(m[k], f) :: m[k]
  }

  /** Newest first: `ORDER BY created_at DESC`. Rows with equal creation
      times may come in either order. */
  predicate SortedDesc(ts: seq<Task>) {
    forall i, j :: 0 <= i < j < |ts| ==> ts[i].createdAt >= ts[j].createdAt
  }

  /** A valid answer to `SELECT * FROM tasks WHERE <f> ORDER BY created_at
      DESC`: every selected row exactly once, newest first. */
  ghost predicate IsListing(m: Table, f: TaskFilter, ts: seq<Task>) {
    SortedDesc(ts) && multiset(ts) == multiset(MatchingRows(m, f))
  }

  lemma EmptyWhenNoMember(s: set<int>)
    ensures (forall x :: x !in s) ==> s == {}
  {
    if forall x :: x !in s {
      assert s == {};
    }
  }

  /** Every nonempty set of ids has a least element. */
  lemma {:induction false} Minimum(s: set<int>) returns (k: int)
    requires s != {}
    ensures k in s && forall j :: j in s ==> k <= j
    decreases |s|
  {
    EmptyWhenNoMember(s);
    var x :| x in s;
    if s == {x} {
      k := x;
    } else {
      var r := Minimum(s - {x});
      k := if x < r then x else r;
      forall j | j in s
        ensures k <= j
      {
        if j != x {
          assert j in s - {x};
        }
      }
    }
  }

  lemma MinimumExists(s: set<int>)
    requires s != {}
    ensures exists k :: k in s && forall j :: j in s ==> k <= j
  {
    var k := Minimum(s);
  }

  /** The smallest id: the table is scanned in ascending id order. */
  function MinKey(s: set<int>): (k: int)
    requires s != {}
    ensures k in s && forall j :: j in s ==> k <= j
  {
    MinimumExists(s);
    var k :| k in s && forall j :: j in s ==> k <= j; k
  }

  /** Places `t` into a newest-first list, before the first row that is not
      newer than it. */
  function InsertDesc(t: Task, ts: seq<Task>): (r: seq<Task>)
    ensures multiset(r) == multiset(ts) + multiset{t}
    ensures |r| == |ts| + 1 && (r[0] == t || (ts != [] && r[0] == ts[0]))
  {
    if ts == [] || ts[0].createdAt <= t.createdAt then [t] + ts
    else
      assert ts == [ts[0]] + ts[1..];
      [ts[0]] + InsertDesc(t, ts[1..])
  }

  /** Inserting into a newest-first list keeps it newest first. */
  lemma {:induction false} InsertDescSorted(t: Task, ts: seq<Task>)
    requires SortedDesc(ts)
    ensures SortedDesc(InsertDesc(t, ts))
    decreases |ts|
  {
    var r := InsertDesc(t, ts);
    if ts != [] && ts[0].createdAt > t.createdAt {
      var tail := InsertDesc(t, ts[1..]);
      InsertDescSorted(t, ts[1..]);
      assert r == [ts[0]] + tail;
      assert tail[0].createdAt <= ts[0].createdAt by {
        if tail[0] != t {
          assert tail[0] == ts[1..][0] == ts[1];
        }
      }
      forall i, j | 0 <= i < j < |r|
        ensures r[i].createdAt >= r[j].createdAt
      {
        assert r[j] == tail[j - 1];
        if i > 0 {
          assert r[i] == tail[i - 1];
        } else if j > 1 {
          assert tail[0].createdAt >= tail[j - 1].createdAt;
        }
      }
    }
  }

  lemma TableShrinks(m: Table, k: int)
    requires k in m
    ensures |m - {k}| < |m|
  {
    assert (m - {k}).Keys == m.Keys - {k};
    assert m.Keys == (m - {k}).Keys + {k};
  }

  /** The query result: rows scanned in id order, each selected row placed
      by creation time. */
  function Select(m: Table, f: TaskFilter): (ts: seq<Task>)
    ensures IsListing(m, f, ts)
    decreases |m|
  {
    if |m| == 0 then
      assert MatchingRows(m, f) == {};
      []
    else
      var k := MinKey(m.Keys);
      TableShrinks(m, k);
      var rest := Select(m - {k}, f);
      RowsSplit(m, f, k);
      if Matches(m[k], f) then
        InsertDescSorted(m[k], rest);
        InsertDesc(m[k], rest)
      else rest
  }

  lemma RowsSplit(m: Table, f: TaskFilter, k: int)
    requires k in m
    ensures multiset(MatchingRows(m, f)) ==
      multiset(MatchingRows(m - {k}, f)) + (if Matches(m[k], f) then multiset{m[k]} else multiset{})
  {
    var rest := MatchingRows(m - {k}, f);
    RowsWithout(m, f, k);
    if Matches(m[k], f) {
      MultisetOfAdded(rest, m[k]);
    }
  }

  /** The selected rows are those of the table without `k`, plus the row
      under `k` when it matches, which is not among them. */
  lemma RowsWithout(m: Table, f: TaskFilter, k: int)
    requires k in m
    ensures m[k] !in MatchingRows(m - {k}, f)
    ensures MatchingRows(m, f) ==
      MatchingRows(m - {k}, f) + (if Matches(m[k], f) then {m[k]} else {})
  {
    var rest := MatchingRows(m - {k}, f);
    var all := MatchingRows(m, f);
    var extra: set<Task> := if Matches(m[k], f) then {m[k]} else {};
    forall t | t in all
      ensures t in rest + extra
    {
      var j :| j in m && Matches(m[j], f) && m[j] == t;
      if j != k {
        assert j in m - {k};
      }
    }
    forall t | t in rest + extra
      ensures t in all
    {
      if t in rest {
        var j :| j in m - {k} && Matches((m - {k})[j], f) && (m - {k})[j] == t;
        assert j in m && m[j] == t;
      }
    }
  }

  lemma MultisetOfAdded(s: set<Task>, x: Task)
    requires x !in s
    ensures multiset(s + {x}) == multiset(s) + multiset{x}
  {
  }

  /** `SELECT COUNT(*) FROM tasks WHERE <f>`. */
  function Count(m: Table, f: TaskFilter): (n: nat)
    ensures n == |MatchingIds(m, f)|
    decreases |m|
  {
    if |m| == 0 then
      assert MatchingIds(m, f) == {};
      0
    else
      var k := MinKey(m.Keys);
      TableShrinks(m, k);
      var rest := MatchingIds(m - {k}, f);
      assert k !in rest;
      assert MatchingIds(m, f) == if Matches(m[k], f) then rest + {k} else rest;
      (if Matches(m[k], f) then 1 else 0) + Count(m - {k}, f)
  }

  /** The number of rows the count query reports is the length of the
      listing for the same filter. */
  lemma {:induction false} ListingLength(m: Table, f: TaskFilter)
    ensures |Select(m, f)| == Count(m, f)
    decreases |m|
  {
    if |m| != 0 {
      var k := MinKey(m.Keys);
      TableShrinks(m, k);
      ListingLength(m - {k}, f);
      var rest := Select(m - {k}, f);
      if Matches(m[k], f) {
        assert |multiset(InsertDesc(m[k], rest))| == |multiset(rest)| + 1;
      }
    }
  }

  /** Every valid listing has as many rows as the count query reports. */
  lemma ListingCount(m: Table, f: TaskFilter, ts: seq<Task>)
    requires IsListing(m, f, ts)
    ensures |ts| == Count(m, f) == |MatchingIds(m, f)|
  {
    ListingLength(m, f);
    assert |multiset(ts)| == |multiset(Select(m, f))|;
  }

  /** A row is listed exactly when it is a stored row the filter selects. */
  lemma ListedIffMatching(m: Table, f: TaskFilter, ts: seq<Task>, t: Task)
    requires IsListing(m, f, ts)
    ensures t in ts <==> t.id in m && m[t.id] == t && Matches(t, f)
  {
    assert t in ts <==> t in multiset(ts);
    if t.id in m && m[t.id] == t && Matches(t, f) {
      assert t in MatchingRows(m, f);
    }
  }

  /** No two stored rows were created at the same time. */
  ghost predicate DistinctCreation(m: Table) {
    forall j, k :: j in m && k in m && j != k ==> m[j].createdAt != m[k].createdAt
  }

  predicate StrictlyDesc(ts: seq<Task>) {
    forall i, j :: 0 <= i < j < |ts| ==> ts[i].createdAt > ts[j].createdAt
  }

  lemma Repeated(ts: seq<Task>, i: int, j: int)
    requires 0 <= i < j < |ts|
    ensures ts[i] == ts[j] ==> multiset(ts)[ts[i]] >= 2
  {
    assert ts == ts[..j] + ts[j..];
    assert ts[i] in ts[..j];
    assert ts[j..][0] == ts[j];
  }

  /** With distinct creation times a listing is strictly newest first. */
  lemma ListingStrict(m: Table, f: TaskFilter, ts: seq<Task>)
    requires DistinctCreation(m) && IsListing(m, f, ts)
    ensures StrictlyDesc(ts)
  {
    forall i, j | 0 <= i < j < |ts|
      ensures ts[i].createdAt > ts[j].createdAt
    {
      ListedIffMatching(m, f, ts, ts[i]);
      ListedIffMatching(m, f, ts, ts[j]);
      Repeated(ts, i, j);
      assert multiset(MatchingRows(m, f))[ts[i]] <= 1;
    }
  }

  /** Two strictly newest-first lists of the same rows are the same list. */
  lemma {:induction false} StrictlySortedUnique(a: seq<Task>, b: seq<Task>)
    requires StrictlyDesc(a) && StrictlyDesc(b) && multiset(a) == multiset(b)
    ensures a == b
    decreases |a|
  {
    if a == [] {
      assert |multiset(b)| == 0;
    } else {
      SameNewest(a, b);
      DropHead(a);
      DropHead(b);
      StrictlySortedUnique(a[1..], b[1..]);
    }
  }

  /** Both lists start with the newest of their common rows. */
  lemma SameNewest(a: seq<Task>, b: seq<Task>)
    requires StrictlyDesc(a) && StrictlyDesc(b) && multiset(a) == multiset(b) && a != []
    ensures b != [] && a[0] == b[0]
  {
    assert a[0] in multiset(b);
    var j :| 0 <= j < |b| && b[j] == a[0];
    assert b[0] in multiset(a);
    var i :| 0 <= i < |a| && a[i] == b[0];
  }

  lemma DropHead(a: seq<Task>)
    requires a != []
    ensures multiset(a[1..]) == multiset(a) - multiset{a[0]}
    ensures StrictlyDesc(a) ==> StrictlyDesc(a[1..])
  {
    assert a == [a[0]] + a[1..];
  }

  /** When creation times are distinct the ordering is fully determined:
      every valid listing is the one `Select` computes. */
  lemma ListingUnique(m: Table, f: TaskFilter, ts: seq<Task>)
    requires DistinctCreation(m) && IsListing(m, f, ts)
    ensures ts == Select(m, f)
  {
    ListingStrict(m, f, ts);
    ListingStrict(m, f, Select(m, f));
    StrictlySortedUnique(ts, Select(m, f));
  }

  /** Keeping the rows of a list that pass a filter, in list order. */
  function Keep(ts: seq<Task>, g: TaskFilter): (r: seq<Task>)
    ensures forall t :: t in r ==> t in ts && Matches(t, g)
    ensures SortedDesc(ts) ==> SortedDesc(r)
  {
    if ts == [] then []
    else if Matches(ts[0], g) then
      var rest := Keep(ts[1..], g);
      HeadNewest(ts);
      [ts[0]] + rest
    else Keep(ts[1..], g)
  }

  /** The head of a newest-first list is at least as new as the rest. */
  lemma HeadNewest(ts: seq<Task>)
    ensures ts != [] && SortedDesc(ts) ==> forall t :: t in ts[1..] ==> ts[0].createdAt >= t.createdAt
  {
    if ts != [] && SortedDesc(ts) {
      forall t | t in ts[1..]
        ensures ts[0].createdAt >= t.createdAt
      {
        var j :| 0 <= j < |ts[1..]| && ts[1..][j] == t;
        assert ts[j + 1] == t;
      }
    }
  }

  /** Keeping retains every occurrence of a passing row and drops the rest. */
  lemma {:induction false} KeepCounts(ts: seq<Task>, g: TaskFilter, t: Task)
    ensures multiset(Keep(ts, g))[t] == if Matches(t, g) then multiset(ts)[t] else 0
    decreases |ts|
  {
    if ts != [] {
      assert ts == [ts[0]] + ts[1..];
      KeepCounts(ts[1..], g, t);
    }
  }

  /** `g` selects only rows that `f` selects. */
  ghost predicate Narrows(g: TaskFilter, f: TaskFilter) {
    forall t :: Matches(t, g) ==> Matches(t, f)
  }

  /** Filtering a listing for `f` by a narrower `g` gives a listing for `g`:
      the narrower query returns the rows of the wider one that pass the
      extra condition, in the same order. */
  lemma KeepListing(m: Table, f: TaskFilter, g: TaskFilter, ts: seq<Task>)
    requires Narrows(g, f) && IsListing(m, f, ts)
    ensures IsListing(m, g, Keep(ts, g))
  {
    var r := Keep(ts, g);
    forall t
      ensures multiset(r)[t] == multiset(MatchingRows(m, g))[t]
    {
      KeepCounts(ts, g, t);
      if t in MatchingRows(m, g) {
        assert t in MatchingRows(m, f);
      }
    }
    assert multiset(r) == multiset(MatchingRows(m, g));
  }

  /** The status query narrows the per-user query. */
  lemma StatusQueryNarrows(u: int, s: TaskStatus)
    ensures Narrows(ByUserAndStatus(u, s), ByUser(u))
  {
  }

  /** The priority query narrows the per-user query. */
  lemma PriorityQueryNarrows(u: int, p: TaskPriority)
    ensures Narrows(ByUserAndPriority(u, p), ByUser(u))
  {
  }

  /** The id is the primary key: a filter on it selects at most that row. */
  lemma ByIdMatches(m: Table, id: int)
    ensures MatchingIds(m, ById(id)) == if id in m then {id} else {}
  {
  }

  /** Adding the owner to the key filter keeps the row only when it is the
      owner's. */
  lemma ByIdAndUserMatches(m: Table, id: int, u: int)
    ensures MatchingIds(m, ByIdAndUser(id, u)) == if id in m && m[id].userId == u then {id} else {}
  {
  }

  /** Selecting by primary key lists the row with that key, or nothing. */
  lemma ByIdListing(m: Table, id: int)
    ensures Select(m, ById(id)) == if id in m then [m[id]] else []
  {
    var ts := Select(m, ById(id));
    ByIdMatches(m, id);
    ListingCount(m, ById(id), ts);
    if ts != [] {
      ListedIffMatching(m, ById(id), ts, ts[0]);
    }
  }

  /** The status query returns the per-user rows that have that status, in
      the per-user order; when creation times are distinct the two queries
      agree exactly. */
  lemma StatusQueryFiltersUserQuery(m: Table, u: int, s: TaskStatus)
    ensures IsListing(m, ByUserAndStatus(u, s), Keep(Select(m, ByUser(u)), ByUserAndStatus(u, s)))
    ensures DistinctCreation(m) ==>
      Select(m, ByUserAndStatus(u, s)) == Keep(Select(m, ByUser(u)), ByUserAndStatus(u, s))
  {
    StatusQueryNarrows(u, s);
    var kept := Keep(Select(m, ByUser(u)), ByUserAndStatus(u, s));
    KeepListing(m, ByUser(u), ByUserAndStatus(u, s), Select(m, ByUser(u)));
    if DistinctCreation(m) {
      ListingUnique(m, ByUserAndStatus(u, s), kept);
    }
  }

  /** The priority query returns the per-user rows that have that priority,
      in the per-user order; when creation times are distinct the two
      queries agree exactly. */
  lemma PriorityQueryFiltersUserQuery(m: Table, u: int, p: TaskPriority)
    ensures IsListing(m, ByUserAndPriority(u, p), Keep(Select(m, ByUser(u)), ByUserAndPriority(u, p)))
    ensures DistinctCreation(m) ==>
      Select(m, ByUserAndPriority(u, p)) == Keep(Select(m, ByUser(u)), ByUserAndPriority(u, p))
  {
    PriorityQueryNarrows(u, p);
    var kept := Keep(Select(m, ByUser(u)), ByUserAndPriority(u, p));
    KeepListing(m, ByUser(u), ByUserAndPriority(u, p), Select(m, ByUser(u)));
    if DistinctCreation(m) {
      ListingUnique(m, ByUserAndPriority(u, p), kept);
    }
  }
}
