/**
 * The `skip`/`take`/`order: { createdAt: 'DESC' }` paging that the coin and
 * post services ask the ORM for. A table is kept in insertion order. Rows are
 * stamped with `createdAt` by a clock that does not run back, so insertion
 * order is non-decreasing in `createdAt` (`Ascending`) and the reversed table is
 * sorted newest first. Rows stamped in the same second come out latest
 * inserted first.
 */
module Pagination {
  import opened Common

  /** `skip: (page - 1) * limit`. */
  function Skip(page: int, limit: int): nat
    requires page >= 1 && limit >= 1
  {
    (page - 1) * limit
  }

  /** The rows `skip .. skip + limit` of an already ordered result. */
  function PageOf<T>(ordered: seq<T>, page: int, limit: int): (r: seq<T>)
    requires page >= 1 && limit >= 1
    ensures |r| == Max(0, Min(limit, |ordered| - Skip(page, limit)))
    ensures forall i :: 0 <= i < |r| ==> r[i] == ordered[Skip(page, limit) + i]
  {
    var skip := Skip(page, limit);
    if skip >= |ordered| then [] else ordered[skip..Min(skip + limit, |ordered|)]
  }

  /** Every row of the ordered result is on exactly the page its position says. */
  lemma PageCovers<T>(ordered: seq<T>, limit: int, k: nat)
    requires limit >= 1 && k < |ordered|
    ensures var page := k / limit + 1;
            k % limit < |PageOf(ordered, page, limit)| &&
            PageOf(ordered, page, limit)[k % limit] == ordered[k]
  {
    var page := k / limit + 1;
    assert Skip(page, limit) == (k / limit) * limit;
    assert Skip(page, limit) + k % limit == k;
  }

  /** The rows are in non-decreasing `key` order. */
  ghost predicate Ascending<T>(table: seq<T>, key: T -> int) {
    forall i, j :: 0 <= i < j < |table| ==> key(table[i]) <= key(table[j])
  }

  /** A row stamped no earlier than every stored row keeps the table in order. */
  lemma AppendKeepsAscending<T>(table: seq<T>, key: T -> int, x: T)
    requires Ascending(table, key)
    requires forall i :: 0 <= i < |table| ==> key(table[i]) <= key(x)
    ensures Ascending(table + [x], key)
  {
    var t := table + [x];
    forall i, j | 0 <= i < j < |t| ensures key(t[i]) <= key(t[j]) {
      if j < |table| {
        assert t[i] == table[i] && t[j] == table[j];
      } else {
        assert t[i] == table[i] && t[j] == x;
      }
    }
  }

  /** A filtered table is still in order. */
  lemma {:induction false} FilterKeepsAscending<T(!new)>(p: T -> bool, table: seq<T>, key: T -> int)
    requires Ascending(table, key)
    ensures Ascending(Filter(p, table), key)
  {
    if table != [] {
      var rest := table[1..];
      assert Ascending(rest, key) by {
        forall i, j | 0 <= i < j < |rest| ensures key(rest[i]) <= key(rest[j]) {
          assert rest[i] == table[i + 1] && rest[j] == table[j + 1];
        }
      }
      FilterKeepsAscending(p, rest, key);
      if p(table[0]) {
        var f := Filter(p, rest);
        FilterMembers(p, rest);
        forall y | y in f ensures key(table[0]) <= key(y) {
          var k :| 0 <= k < |rest| && rest[k] == y;
          assert y == table[k + 1];
        }
        var t := [table[0]] + f;
        assert Filter(p, table) == t;
        forall i, j | 0 <= i < j < |t| ensures key(t[i]) <= key(t[j]) {
          assert t[j] == f[j - 1] && t[j] in f;
          if i > 0 {
            assert t[i] == f[i - 1];
          }
        }
      }
    }
  }

  /** Newest first: row i of the result is the i-th most recently inserted row. */
  function NewestFirst<T>(table: seq<T>): (r: seq<T>)
    ensures |r| == |table|
    ensures forall i :: 0 <= i < |r| ==> r[i] == table[|table| - 1 - i]
  {
    Reverse(table)
  }

  /** `findAndCount({ skip, take, order: { createdAt: 'DESC' } })` over a table in insertion order. */
  function NewestFirstPage<T>(table: seq<T>, page: int, limit: int): (r: seq<T>)
    requires page >= 1 && limit >= 1
    ensures |r| <= limit
    ensures |r| == Max(0, Min(limit, |table| - Skip(page, limit)))
    ensures forall i :: 0 <= i < |r| ==> r[i] == table[|table| - 1 - (Skip(page, limit) + i)]
  {
    PageOf(NewestFirst(table), page, limit)
  }

  /**
   * `r`, shown after `skip` rows of `table`, runs from the newest row to the
   * oldest by `key`; the rows shown before it are no older, and the rows left
   * after it no newer.
   */
  ghost predicate NewestFirstByKey<T>(r: seq<T>, table: seq<T>, key: T -> int, skip: nat) {
    && (forall i, j :: 0 <= i < j < |r| ==> key(r[i]) >= key(r[j]))
    && (forall i, k :: 0 <= i < |r| && 0 <= k < |table| && |table| - skip <= k ==> key(table[k]) >= key(r[i]))
    && (forall i, k :: 0 <= i < |r| && 0 <= k < |table| - skip - |r| ==> key(table[k]) <= key(r[i]))
  }

  /** Over a table in `key` order every page is newest first. */
  lemma NewestFirstPageByKey<T>(table: seq<T>, key: T -> int, page: int, limit: int)
    requires page >= 1 && limit >= 1 && Ascending(table, key)
    ensures NewestFirstByKey(NewestFirstPage(table, page, limit), table, key, Skip(page, limit))
  {
  }

  /** A page holds only rows of the table. */
  lemma NewestFirstPageRows<T>(table: seq<T>, page: int, limit: int)
    requires page >= 1 && limit >= 1
    ensures forall x :: x in NewestFirstPage(table, page, limit) ==> x in table
  {
    var r := NewestFirstPage(table, page, limit);
    forall x | x in r
      ensures x in table
    {
      var i :| 0 <= i < |r| && r[i] == x;
      assert x == table[|table| - 1 - (Skip(page, limit) + i)];
    }
  }
}
