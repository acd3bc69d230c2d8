/**
 * The task query over a table whose rows were inserted one after another
 * (the pagination scenario of server/src/tests/get_tasks.test.ts): newest first
 * is then exactly the reverse of insertion order, and every page can be
 * read off the table directly.
 */
module PaginationScenario {
  import opened Wrappers
  import opened Schema
  import opened TaskQuery

  /**
   * A table in insertion order: ids increase (the `id SERIAL` column) and
   * creation times never decrease, though rows inserted together may share one.
   */
  predicate Chronological(table: seq<Task>) {
    forall i, j :: 0 <= i < j < |table| ==>
      table[i].created_at <= table[j].created_at && table[i].id < table[j].id
  }

  /** A query that asks for every task of its owner: no filter besides `user_id`. */
  predicate OwnerOnly(q: GetTasksInput) {
    q.completed.None? && q.priority.None? && q.due_before.None?
  }

  /** The rows in the opposite order. */
  function Reversed(s: seq<Task>): (r: seq<Task>)
    ensures |r| == |s|
    ensures forall i :: 0 <= i < |s| ==> r[i] == s[|s| - 1 - i]
  {
    seq(|s|, i requires 0 <= i < |s| => s[|s| - 1 - i])
  }

  /** Reversing keeps every row and its multiplicity. */
  lemma {:induction false} ReversedSameRows(s: seq<Task>)
    ensures multiset(Reversed(s)) == multiset(s)
    decreases |s|
  {
    if s != [] {
      ReversedSameRows(s[1..]);
      assert Reversed(s) == Reversed(s[1..]) + [s[0]];
      assert s == [s[0]] + s[1..];
    }
  }

  /** A chronological table read backwards is newest first (equal times by id, larger first), with distinct sort keys. */
  lemma ReversedNewestFirst(table: seq<Task>)
    requires Chronological(table)
    ensures NewestFirst(Reversed(table)) && KeysUnique(Reversed(table))
  {
  }

  /** Every row of an owner-only query's owner is selected, and the selection is newest first. */
  lemma ChronologicalOrder(table: seq<Task>, q: GetTasksInput)
    requires OwnerOnly(q)
    requires forall i :: 0 <= i < |table| ==> table[i].user_id == q.user_id
    requires Chronological(table)
    ensures Ordered(table, q) == Reversed(table)
  {
    FilterKeepsAll(table, (t: Task) => Matches(q, t));
    ReversedSameRows(table);
    ReversedNewestFirst(table);
    SortDetermined(table, Reversed(table));
  }

  /**
   * Over a chronological table of one owner, the page at `offset` holds the
   * rows counted back from the newest: its i-th task is the row inserted
   * `offset + i` places before the last one. So with five tasks and pages of
   * two, the first page is the fifth and fourth task and the second page the
   * third and second.
   */
  lemma ChronologicalPages(table: seq<Task>, q: GetTasksInput)
    requires OwnerOnly(q)
    requires forall i :: 0 <= i < |table| ==> table[i].user_id == q.user_id
    requires Chronological(table)
    ensures var r := Query(table, q);
      && |r| == (if q.offset >= |table| then 0
                 else if |table| - q.offset < q.limit then |table| - q.offset else q.limit)
      && forall i :: 0 <= i < |r| ==> r[i] == ToTask(table[|table| - 1 - q.offset - i])
  {
    ChronologicalOrder(table, q);
    QueryIsSlice(table, q);
  }

  /**
   * The test's own numbers: five tasks read two at a time give the fifth and
   * fourth, then the third and second, then the first.
   */
  lemma FiveTasksTwoPerPage(table: seq<Task>, q: GetTasksInput)
    requires OwnerOnly(q) && q.limit == 2
    requires |table| == 5
    requires forall i :: 0 <= i < |table| ==> table[i].user_id == q.user_id
    requires Chronological(table)
    ensures Query(table, q.(offset := 0)) == [ToTask(table[4]), ToTask(table[3])]
    ensures Query(table, q.(offset := 2)) == [ToTask(table[2]), ToTask(table[1])]
    ensures Query(table, q.(offset := 4)) == [ToTask(table[0])]
  {
    FullPageOfTwo(table, q.(offset := 0));
    FullPageOfTwo(table, q.(offset := 2));
    LastPage(table, q.(offset := 4));
  }

  lemma FullPageOfTwo(table: seq<Task>, q: GetTasksInput)
    requires OwnerOnly(q) && q.limit == 2 && q.offset + 2 <= |table|
    requires forall i :: 0 <= i < |table| ==> table[i].user_id == q.user_id
    requires Chronological(table)
    ensures Query(table, q) == [ToTask(table[|table| - 1 - q.offset]), ToTask(table[|table| - 2 - q.offset])]
  {
    ChronologicalPages(table, q);
    var r := Query(table, q);
    assert |r| == 2;
    assert r[0] == ToTask(table[|table| - 1 - q.offset]);
    assert r[1] == ToTask(table[|table| - 2 - q.offset]);
  }

  lemma LastPage(table: seq<Task>, q: GetTasksInput)
    requires OwnerOnly(q) && q.limit >= 1 && q.offset + 1 == |table|
    requires forall i :: 0 <= i < |table| ==> table[i].user_id == q.user_id
    requires Chronological(table)
    ensures Query(table, q) == [ToTask(table[0])]
  {
    ChronologicalPages(table, q);
  }
}
