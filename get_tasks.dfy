/**
 * The task query of server/src/handlers/get_tasks.ts.
 *
 * The handler turns a `GetTasksInput` into a SQL query: the owner predicate,
 * one condition per optional filter joined with AND, newest first, then
 * LIMIT/OFFSET; it maps the returned rows to `Task` values. Here the table
 * is a sequence of task rows and the query is its meaning:
 *
 *   Query(table, q) = project(page(order(filter(table))))
 *
 * SQL leaves the order of rows with equal `created_at` open; this model fixes
 * it by `id`, larger first, so that consecutive pages of one table fit together.
 */
module TaskQuery {
  import opened Wrappers
  import opened Schema

  // ------------------------------------------------------------------ filtering

  /** The rows of `s` that satisfy `keep`. */
  function Filter<T(!new)>(s: seq<T>, keep: T -> bool): (r: seq<T>)
    ensures forall x :: x in r <==> x in s && keep(x)
    ensures forall x :: keep(x) ==> multiset(r)[x] == multiset(s)[x]
    ensures multiset(r) <= multiset(s)
    ensures |r| <= |s|
  {
    if s == [] then []
    else
      assert s == [s[0]] + s[1..];
      (if keep(s[0]) then [s[0]] else []) + Filter(s[1..], keep)
  }

  /** Filtering with two predicates that agree everywhere gives the same rows. */
  lemma {:induction false} FilterCongruent<T(!new)>(s: seq<T>, p: T -> bool, p': T -> bool)
    requires forall x :: p(x) == p'(x)
    ensures Filter(s, p) == Filter(s, p')
  {
    if s != [] {
      FilterCongruent(s[1..], p, p');
    }
  }

  lemma {:induction false} FilterKeepsAll<T(!new)>(s: seq<T>, keep: T -> bool)
    requires forall x :: x in s ==> keep(x)
    ensures Filter(s, keep) == s
  {
    if s != [] {
      FilterKeepsAll(s[1..], keep);
    }
  }

  /** What the WHERE clause of the query means for one row. */
  predicate Matches(q: GetTasksInput, t: Task) {
    && t.user_id == q.user_id
    && (q.completed.Some? ==> t.completed == q.completed.value)
    && (q.priority.Some? ==> t.priority == q.priority.value)
    && (q.due_before.Some? ==> t.due_date.Some? && t.due_date.value <= q.due_before.value)
  }

  /** The rows of the table that the query selects, before ordering. */
  function Matching(table: seq<Task>, q: GetTasksInput): (r: seq<Task>)
  {
    Filter(table, (t: Task) => Matches(q, t))
  }

  // ------------------------------------------------------------------ ordering

  /** `ORDER BY created_at DESC`, ties broken by `id DESC`: may `a` come before `b`? */
  predicate Precedes(a: Task, b: Task) {
    a.created_at > b.created_at || (a.created_at == b.created_at && a.id >= b.id)
  }

  predicate NewestFirst(s: seq<Task>) {
    forall i, j :: 0 <= i < j < |s| ==> Precedes(s[i], s[j])
  }

  /** Putting `x` in front of an ordered sequence keeps it ordered when `x` may precede all of it. */
  lemma PrependOrdered(x: Task, r: seq<Task>)
    requires NewestFirst(r)
    requires forall y :: y in multiset(r) ==> Precedes(x, y)
    ensures NewestFirst([x] + r)
  {
    forall j | 0 <= j < |r| ensures Precedes(x, r[j]) {
      assert r[j] in multiset(r);
    }
  }

  /** Places `t` into an ordered sequence. */
  function Insert(t: Task, s: seq<Task>): (r: seq<Task>)
    requires NewestFirst(s)
    ensures NewestFirst(r)
    ensures multiset(r) == multiset(s) + multiset{t}
    decreases |s|
  {
    if s == [] || Precedes(t, s[0]) then
      PrependOrdered(t, s);
      [t] + s
    else
      assert s == [s[0]] + s[1..];
      var r' := Insert(t, s[1..]);
      assert forall y :: y in multiset(r') ==> Precedes(s[0], y) by {
        forall y | y in multiset(r') ensures Precedes(s[0], y) {
          if y != t {
            assert y in s[1..];
          }
        }
      }
      PrependOrdered(s[0], r');
      [s[0]] + r'
  }

  /** The table in the order the query returns it: an ordered permutation. */
  function SortNewestFirst(s: seq<Task>): (r: seq<Task>)
    ensures NewestFirst(r)
    ensures multiset(r) == multiset(s)
    decreases |s|
  {
    if s == [] then []
    else
      assert s == [s[0]] + s[1..];
      Insert(s[0], SortNewestFirst(s[1..]))
  }

  /**
   * Rows that agree on the sort key (`created_at`, `id`) are the same row.
   * This holds of every task table, whose `id` is the primary key.
   */
  predicate KeysUnique(s: seq<Task>) {
    forall i, j :: 0 <= i < |s| && 0 <= j < |s| && s[i].created_at == s[j].created_at && s[i].id == s[j].id
      ==> s[i] == s[j]
  }

  lemma FirstPrecedesAll(s: seq<Task>, x: Task)
    requires NewestFirst(s) && x in multiset(s)
    ensures Precedes(s[0], x)
  {
    var k :| 0 <= k < |s| && s[k] == x;
  }

  /**
   * With unique ids the order is fully determined: two newest-first
   * arrangements of the same rows are identical, so the tie-break makes
   * every page well defined.
   */
  lemma {:induction false} NewestFirstUnique(a: seq<Task>, b: seq<Task>)
    requires NewestFirst(a) && NewestFirst(b)
    requires multiset(a) == multiset(b) && KeysUnique(a)
    ensures a == b
    decreases |a|
  {
    assert |a| == |multiset(a)| == |multiset(b)| == |b|;
    if a != [] {
      SameFirst(a, b);
      TailRows(a);
      TailRows(b);
      NewestFirstUnique(a[1..], b[1..]);
      assert a == [a[0]] + a[1..] && b == [b[0]] + b[1..];
    }
  }

  /** Two newest-first arrangements of the same rows, with unique keys, start with the same row. */
  lemma SameFirst(a: seq<Task>, b: seq<Task>)
    requires NewestFirst(a) && NewestFirst(b)
    requires multiset(a) == multiset(b) && KeysUnique(a)
    requires a != [] && b != []
    ensures a[0] == b[0]
  {
    assert a[0] in multiset(b) && b[0] in multiset(a);
    FirstPrecedesAll(b, a[0]);
    FirstPrecedesAll(a, b[0]);
    var k :| 0 <= k < |a| && a[k] == b[0];
  }

  /** The rows after the first are all the rows but one copy of the first. */
  lemma TailRows(a: seq<Task>)
    requires a != []
    ensures multiset(a[1..]) == multiset(a) - multiset{a[0]}
  {
    assert a == [a[0]] + a[1..];
  }

  /** The sort returns the one newest-first arrangement of its input. */
  lemma SortDetermined(s: seq<Task>, expected: seq<Task>)
    requires NewestFirst(expected) && KeysUnique(expected)
    requires multiset(expected) == multiset(s)
    ensures SortNewestFirst(s) == expected
  {
    NewestFirstUnique(expected, SortNewestFirst(s));
  }

  /** The selected rows, newest first: the sequence LIMIT and OFFSET cut. */
  function Ordered(table: seq<Task>, q: GetTasksInput): seq<Task> {
    SortNewestFirst(Matching(table, q))
  }

  // ------------------------------------------------------------------ pagination

  /** `OFFSET offset LIMIT limit` on an ordered sequence. */
  function Page<T>(s: seq<T>, limit: nat, offset: nat): (r: seq<T>)
    ensures |r| <= limit && |r| <= |s|
    ensures offset >= |s| ==> r == []
  {
    var lo := if offset < |s| then offset else |s|;
    var hi := if offset + limit < |s| then offset + limit else |s|;
    s[lo..hi]
  }

  /** A page is the run of `limit` elements that starts at `offset`, cut short by the end. */
  lemma PageSlice<T>(s: seq<T>, limit: nat, offset: nat)
    ensures var r := Page(s, limit, offset);
      && |r| == (if offset >= |s| then 0 else if |s| - offset < limit then |s| - offset else limit)
      && (forall i :: 0 <= i < |r| ==> r[i] == s[offset + i])
  {
  }

  /** Two adjacent pages together are the page that spans both. */
  lemma PagesConcatenate<T>(s: seq<T>, a: nat, b: nat, offset: nat)
    ensures Page(s, a, offset) + Page(s, b, offset + a) == Page(s, a + b, offset)
  {
    var lo := if offset < |s| then offset else |s|;
    var mid := if offset + a < |s| then offset + a else |s|;
    var hi := if offset + a + b < |s| then offset + a + b else |s|;
    assert s[lo..mid] + s[mid..hi] == s[lo..hi];
  }

  // ------------------------------------------------------------------ projection

  /**
   * The row-to-Task map: `description` is kept only when it is a non-empty
   * string (JavaScript truthiness); `due_date` is kept as stored.
   */
  function ToTask(row: Task): (t: Task)
    ensures t.(description := row.description) == row
    ensures t.description.None? <==> row.description.None? || row.description == Some("")
    ensures t.description.Some? ==> t.description == row.description
  {
    row.(description := if row.description == Some("") then None else row.description)
  }

  /** The projection changes nothing but an empty description, and keeps what the filters look at. */
  lemma ToTaskKeeps(row: Task)
    ensures var t := ToTask(row);
      && t.id == row.id && t.user_id == row.user_id && t.title == row.title
      && t.completed == row.completed && t.priority == row.priority
      && t.due_date == row.due_date && t.created_at == row.created_at && t.updated_at == row.updated_at
      && (t.description.None? <==> row.description.None? || row.description == Some(""))
      && (t.description.Some? ==> t.description == row.description)
      && ToTask(t) == t
  {
  }

  function ProjectAll(rows: seq<Task>): (r: seq<Task>)
    ensures |r| == |rows|
    ensures forall i :: 0 <= i < |rows| ==> r[i] == ToTask(rows[i])
  {
    seq(|rows|, i requires 0 <= i < |rows| => ToTask(rows[i]))
  }

  // ------------------------------------------------------------------ the query

  /** The tasks `getTasks` returns for input `q` over the task table `table`. */
  function Query(table: seq<Task>, q: GetTasksInput): (r: seq<Task>)
    ensures |r| <= q.limit && |r| <= |table|
  {
    var o := Ordered(table, q);
    assert |o| == |multiset(o)| == |multiset(Matching(table, q))| == |Matching(table, q)|;
    ProjectAll(Page(o, q.limit, q.offset))
  }

  /**
   * Every returned task is a selected row of the table: it belongs to the
   * requested owner and satisfies every filter that is present, whatever the
   * other filters say. With `due_before`, tasks without a due date never appear.
   */
  lemma QuerySound(table: seq<Task>, q: GetTasksInput, i: nat)
    requires i < |Query(table, q)|
    ensures var t := Query(table, q)[i];
      && (exists row :: row in table && Matches(q, row) && t == ToTask(row))
      && t.user_id == q.user_id
      && (q.completed.Some? ==> t.completed == q.completed.value)
      && (q.priority.Some? ==> t.priority == q.priority.value)
      && (q.due_before.Some? ==> t.due_date.Some? && t.due_date.value <= q.due_before.value)
  {
    var o := Ordered(table, q);
    PageSlice(o, q.limit, q.offset);
    var row := o[q.offset + i];
    assert row in multiset(o);
    assert row in Matching(table, q);
    ToTaskKeeps(row);
  }

  /** Before paging nothing is lost: every selected row is in the ordered sequence, as often as in the table. */
  lemma OrderedComplete(table: seq<Task>, q: GetTasksInput)
    ensures forall t :: t in Ordered(table, q) <==> t in table && Matches(q, t)
    ensures forall t :: Matches(q, t) ==> multiset(Ordered(table, q))[t] == multiset(table)[t]
    ensures forall t :: !Matches(q, t) ==> multiset(Ordered(table, q))[t] == 0
  {
    var m := Matching(table, q);
    forall t ensures t in Ordered(table, q) <==> t in m {
      assert t in Ordered(table, q) <==> t in multiset(Ordered(table, q));
      assert t in m <==> t in multiset(m);
    }
    forall t | !Matches(q, t) ensures multiset(Ordered(table, q))[t] == 0 {
      assert t !in m;
    }
  }

  /** An absent `completed` filter leaves completion unconstrained. */
  lemma CompletedUnconstrained(q: GetTasksInput, t: Task)
    requires q.completed.None?
    ensures Matches(q, t) <==> Matches(q, t.(completed := !t.completed))
  {
  }

  /** The result is newest first: `created_at` never increases along it. */
  lemma QueryNewestFirst(table: seq<Task>, q: GetTasksInput)
    ensures var r := Query(table, q);
      forall i, j :: 0 <= i < j < |r| ==> r[i].created_at >= r[j].created_at
  {
    var o := Ordered(table, q);
    PageSlice(o, q.limit, q.offset);
  }

  /**
   * The result is the slice [offset, offset + limit) of the ordered selection:
   * never longer than `limit`, empty once `offset` reaches the number of matches.
   */
  lemma QueryIsSlice(table: seq<Task>, q: GetTasksInput)
    ensures var o, r := Ordered(table, q), Query(table, q);
      && |r| <= q.limit
      && (q.offset >= |o| ==> r == [])
      && (q.offset < |o| ==> |r| == if |o| - q.offset < q.limit then |o| - q.offset else q.limit)
      && (forall i :: 0 <= i < |r| ==> r[i] == ToTask(o[q.offset + i]))
  {
    PageSlice(Ordered(table, q), q.limit, q.offset);
  }

  /** The page bounds play no part in which rows are selected or in their order. */
  lemma SameFiltersSameOrder(table: seq<Task>, q: GetTasksInput, q': GetTasksInput)
    requires q'.(limit := q.limit, offset := q.offset) == q
    ensures Ordered(table, q') == Ordered(table, q)
  {
    FilterCongruent(table, (t: Task) => Matches(q, t), (t: Task) => Matches(q', t));
  }

  lemma ProjectAllConcat(a: seq<Task>, b: seq<Task>)
    ensures ProjectAll(a) + ProjectAll(b) == ProjectAll(a + b)
  {
  }

  /**
   * On an unchanged table, the first page of size k followed by the second
   * page of size k is the first page of size 2k.
   */
  lemma QueryPagesConcatenate(table: seq<Task>, q: GetTasksInput, k: nat)
    ensures Query(table, q.(limit := k, offset := 0)) + Query(table, q.(limit := k, offset := k))
         == Query(table, q.(limit := 2 * k, offset := 0))
  {
    var o := Ordered(table, q);
    var first, second, both := q.(limit := k, offset := 0), q.(limit := k, offset := k), q.(limit := 2 * k, offset := 0);
    SameFiltersSameOrder(table, q, first);
    SameFiltersSameOrder(table, q, second);
    SameFiltersSameOrder(table, q, both);
    assert Query(table, first) == ProjectAll(Page(o, k, 0));
    assert Query(table, second) == ProjectAll(Page(o, k, k));
    assert Query(table, both) == ProjectAll(Page(o, 2 * k, 0));
    PagesConcatenate(o, k, k, 0);
    ProjectAllConcat(Page(o, k, 0), Page(o, k, k));
  }

  // ------------------------------------------------------------------ the handler

  /** One SQL condition of the WHERE clause. */
  datatype Condition =
    | OwnerIs(user_id: int)
    | CompletedIs(completed: bool)
    | PriorityIs(priority: Priority)
    | DueNoLaterThan(instant: Timestamp)

  /** Does a row satisfy a condition? `NULL <= x` is not true, so a row without a due date fails `DueNoLaterThan`. */
  predicate Holds(c: Condition, t: Task) {
    match c
    case OwnerIs(id) => t.user_id == id
    case CompletedIs(b) => t.completed == b
    case PriorityIs(p) => t.priority == p
    case DueNoLaterThan(d) => t.due_date.Some? && t.due_date.value <= d
  }

  /** The conditions joined with AND. */
  predicate AllHold(cs: seq<Condition>, t: Task) {
    forall i :: 0 <= i < |cs| ==> Holds(cs[i], t)
  }

  lemma AllHoldAppend(a: seq<Condition>, b: seq<Condition>, t: Task)
    ensures AllHold(a + b, t) <==> AllHold(a, t) && AllHold(b, t)
  {
    if AllHold(a, t) && AllHold(b, t) {
      forall i | 0 <= i < |a + b| ensures Holds((a + b)[i], t) {
        if i >= |a| {
          assert (a + b)[i] == b[i - |a|];
        }
      }
    }
    if AllHold(a + b, t) {
      forall i | 0 <= i < |a| ensures Holds(a[i], t) {
        assert (a + b)[i] == a[i];
      }
      forall i | 0 <= i < |b| ensures Holds(b[i], t) {
        assert (a + b)[|a| + i] == b[i];
      }
    }
  }

  /**
   * Builds the WHERE clause as the handler does: the owner condition, then
   * one pushed condition per filter that is present, appended only when
   * there is at least one.
   */
  method BuildWhere(input: GetTasksInput) returns (where: seq<Condition>)
    ensures |where| >= 1 && where[0] == OwnerIs(input.user_id)
    ensures input.completed.Some? <==> exists c :: c in where && c.CompletedIs?
    ensures input.priority.Some? <==> exists c :: c in where && c.PriorityIs?
    ensures input.due_before.Some? <==> exists c :: c in where && c.DueNoLaterThan?
    ensures forall t :: AllHold(where, t) <==> Matches(input, t)
  {
    var conditions: seq<Condition> := [];
    if input.completed.Some? {
      conditions := conditions + [CompletedIs(input.completed.value)];
    }
    if input.priority.Some? {
      conditions := conditions + [PriorityIs(input.priority.value)];
    }
    if input.due_before.Some? {
      conditions := conditions + [DueNoLaterThan(input.due_before.value)];
    }
    where := [OwnerIs(input.user_id)];
    if |conditions| > 0 {
      where := where + conditions;
    }
    ghost var c := if input.completed.Some? then [CompletedIs(input.completed.value)] else [];
    ghost var p := if input.priority.Some? then [PriorityIs(input.priority.value)] else [];
    ghost var d := if input.due_before.Some? then [DueNoLaterThan(input.due_before.value)] else [];
    assert where == [OwnerIs(input.user_id)] + c + p + d;
    assert forall x :: x in where <==> x == OwnerIs(input.user_id) || x in c || x in p || x in d;
    if input.completed.Some? { assert c[0] in where; }
    if input.priority.Some? { assert p[0] in where; }
    if input.due_before.Some? { assert d[0] in where; }
    forall t ensures AllHold(where, t) <==> Matches(input, t) {
      ghost var owner := [OwnerIs(input.user_id)];
      assert owner[0] == OwnerIs(input.user_id);
      assert AllHold(owner, t) <==> t.user_id == input.user_id;
      assert AllHold(c, t) <==> (input.completed.Some? ==> t.completed == input.completed.value);
      assert AllHold(p, t) <==> (input.priority.Some? ==> t.priority == input.priority.value);
      assert AllHold(d, t) <==> (input.due_before.Some? ==> Holds(DueNoLaterThan(input.due_before.value), t));
      AllHoldAppend([OwnerIs(input.user_id)] + c + p, d, t);
      AllHoldAppend([OwnerIs(input.user_id)] + c, p, t);
      AllHoldAppend([OwnerIs(input.user_id)], c, t);
    }
  }

  /**
   * `getTasks`: select with the built WHERE clause, order newest first, cut
   * the page, project the rows. The result is the query's meaning.
   */
  method GetTasks(table: seq<Task>, input: GetTasksInput) returns (tasks: seq<Task>)
    requires ValidGetTasksInput(input)
    ensures tasks == Query(table, input)
    ensures |tasks| <= input.limit <= MaxLimit
  {
    var where := BuildWhere(input);
    var rows := Filter(table, (t: Task) => AllHold(where, t));
    FilterCongruent(table, (t: Task) => AllHold(where, t), (t: Task) => Matches(input, t));
    var ordered := SortNewestFirst(rows);
    var page := Page(ordered, input.limit, input.offset);
    tasks := ProjectAll(page);
    QueryIsSlice(table, input);
  }

}
