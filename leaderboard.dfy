// The final table: one row per player who has played at least one rated set,
// ordered by the conservative skill estimate.

module Leaderboard {
  import opened Wrappers
  import opened RatingEngine

  /** One row of the table. The rating's mean and deviation stay inside
      `rating`; the win rate is the exact quotient of the two counters. */
  datatype Row<R> = Row(id: int, prefix: Option<string>, tag: Option<string>, rating: R,
                        wins: nat, sets: nat, winRate: real)

  function RowOf<R>(id: int, p: Player<R>): (row: Row<R>)
    requires p.sets > 0
    ensures row.id == id && row.sets == p.sets && row.wins == p.wins && row.rating == p.rating
    ensures row.prefix == p.prefix && row.tag == p.tag
    ensures row.winRate * (p.sets as real) == p.wins as real
  {
    Row(id, p.prefix, p.tag, p.rating, p.wins, p.sets, p.wins as real / p.sets as real)
  }

  /** A player with `wins <= sets` has a win rate between 0 and 1. */
  lemma WinRateBounds<R>(id: int, p: Player<R>)
    requires 0 < p.sets && p.wins <= p.sets
    ensures 0.0 <= RowOf(id, p).winRate <= 1.0
  {
    var r := RowOf(id, p).winRate;
    assert r * (p.sets as real) <= p.sets as real;
  }

  /** Every row is the row of a player with a non-zero set count who is not
      in `todo`. */
  ghost predicate RowsFrom<R>(table: seq<Row<R>>, players: Registry<R>, todo: set<int>)
  {
    forall i :: 0 <= i < |table| ==>
      table[i].id in players && table[i].id !in todo && players[table[i].id].sets > 0
      && table[i] == RowOf(table[i].id, players[table[i].id])
  }

  /** Every player outside `todo` with a non-zero set count has a row. */
  ghost predicate Covers<R>(table: seq<Row<R>>, players: Registry<R>, todo: set<int>)
  {
    forall id :: id in players && id !in todo && players[id].sets > 0 ==>
      exists i :: 0 <= i < |table| && table[i].id == id
  }

  /** No player has two rows. */
  ghost predicate DistinctIds<R>(table: seq<Row<R>>)
  {
    forall i, j :: 0 <= i < j < |table| ==> table[i].id != table[j].id
  }

  /** The rows are exactly the players with a non-zero set count, once each. */
  ghost predicate Lists<R>(table: seq<Row<R>>, players: Registry<R>)
  {
    RowsFrom(table, players, {}) && Covers(table, players, {}) && DistinctIds(table)
  }

  lemma AddRowFrom<R>(table: seq<Row<R>>, players: Registry<R>, todo: set<int>, id: int)
    requires RowsFrom(table, players, todo) && id in todo && id in players && players[id].sets > 0
    ensures RowsFrom(table + [RowOf(id, players[id])], players, todo - {id})
  {
    var t := table + [RowOf(id, players[id])];
    assert forall i :: 0 <= i < |table| ==> t[i] == table[i];
  }

  lemma AddRowCovers<R>(table: seq<Row<R>>, players: Registry<R>, todo: set<int>, id: int)
    requires Covers(table, players, todo) && id in players && players[id].sets > 0
    ensures Covers(table + [RowOf(id, players[id])], players, todo - {id})
  {
    var t := table + [RowOf(id, players[id])];
    assert t[|table|].id == id;
    forall other | other in players && other !in todo - {id} && players[other].sets > 0
      ensures exists i :: 0 <= i < |t| && t[i].id == other
    {
      if other != id {
        var i :| 0 <= i < |table| && table[i].id == other;
        assert t[i] == table[i];
      }
    }
  }

  lemma AddRowDistinct<R>(table: seq<Row<R>>, players: Registry<R>, todo: set<int>, id: int)
    requires RowsFrom(table, players, todo) && DistinctIds(table) && id in todo && id in players && players[id].sets > 0
    ensures DistinctIds(table + [RowOf(id, players[id])])
  {
    var t := table + [RowOf(id, players[id])];
    assert forall i :: 0 <= i < |table| ==> t[i] == table[i];
  }

  /** Walks the registry and keeps the players who played a rated set. */
  method Build<R>(players: Registry<R>) returns (table: seq<Row<R>>)
    ensures Lists(table, players)
    ensures Consistent(players) ==> forall i :: 0 <= i < |table| ==> 0.0 <= table[i].winRate <= 1.0
  {
    table := [];
    var todo := players.Keys;
    while todo != {}
      invariant todo <= players.Keys
      invariant RowsFrom(table, players, todo) && Covers(table, players, todo) && DistinctIds(table)
      decreases todo
    {
      ghost var _ := PickOne(todo);
      var id :| id in todo;
      if players[id].sets > 0 {
        AddRowFrom(table, players, todo, id);
        AddRowCovers(table, players, todo, id);
        AddRowDistinct(table, players, todo, id);
        table := table + [RowOf(id, players[id])];
      }
      todo := todo - {id};
    }
    if Consistent(players) {
      forall i | 0 <= i < |table|
        ensures 0.0 <= table[i].winRate <= 1.0
      {
        WinRateBounds(table[i].id, players[table[i].id]);
      }
    }
  }

  /** Ascending by the conservative estimate `expose` of each row's rating. */
  ghost predicate SortedByExpose<R>(table: seq<Row<R>>, expose: R -> real)
  {
    forall i, j :: 0 <= i < j < |table| ==> expose(table[i].rating) <= expose(table[j].rating)
  }

  function InsertRow<R>(row: Row<R>, table: seq<Row<R>>, expose: R -> real): (r: seq<Row<R>>)
    ensures multiset(r) == multiset(table) + multiset{row}
    ensures |r| == |table| + 1
    ensures r[0] == row || (table != [] && r[0] == table[0])
  {
    if table == [] || expose(row.rating) <= expose(table[0].rating) then [row] + table
    else
      assert table == [table[0]] + table[1..];
      [table[0]] + InsertRow(row, table[1..], expose)
  }

  /** A bound below the row and every element of the table bounds the result. */
  lemma {:induction false} InsertRowAbove<R>(row: Row<R>, table: seq<Row<R>>, expose: R -> real, lo: real)
    requires lo <= expose(row.rating)
    requires forall k :: 0 <= k < |table| ==> lo <= expose(table[k].rating)
    ensures forall k :: 0 <= k < |InsertRow(row, table, expose)| ==> lo <= expose(InsertRow(row, table, expose)[k].rating)
  {
    if table != [] && expose(row.rating) > expose(table[0].rating) {
      var tail := table[1..];
      assert forall k :: 0 <= k < |tail| ==> tail[k] == table[k + 1];
      InsertRowAbove(row, tail, expose, lo);
    }
  }

  lemma {:induction false} InsertRowSorted<R>(row: Row<R>, table: seq<Row<R>>, expose: R -> real)
    requires SortedByExpose(table, expose)
    ensures SortedByExpose(InsertRow(row, table, expose), expose)
  {
    if table != [] && expose(row.rating) > expose(table[0].rating) {
      var tail := table[1..];
      assert forall k :: 0 <= k < |tail| ==> tail[k] == table[k + 1];
      InsertRowSorted(row, tail, expose);
      InsertRowAbove(row, tail, expose, expose(table[0].rating));
      var r := InsertRow(row, table, expose);
      var rest := InsertRow(row, tail, expose);
      assert r == [table[0]] + rest;
      forall i, j | 0 <= i < j < |r|
        ensures expose(r[i].rating) <= expose(r[j].rating)
      {
        if i > 0 {
          assert r[i] == rest[i - 1] && r[j] == rest[j - 1];
        } else {
          assert r[j] == rest[j - 1];
        }
      }
    }
  }

  /** The final sort of the table: a permutation of the rows, ascending by expose. */
  function SortByExpose<R>(table: seq<Row<R>>, expose: R -> real): (r: seq<Row<R>>)
    ensures multiset(r) == multiset(table)
    ensures SortedByExpose(r, expose)
  {
    if table == [] then []
    else
      var rest := SortByExpose(table[1..], expose);
      InsertRowSorted(table[0], rest, expose);
      assert table == [table[0]] + table[1..];
      InsertRow(table[0], rest, expose)
  }

  /** The rows of `table` whose exposure is v, in their order in `table`. */
  function ExposedAt<R>(table: seq<Row<R>>, expose: R -> real, v: real): seq<Row<R>>
  {
    if table == [] then []
    else (if expose(table[0].rating) == v then [table[0]] else []) + ExposedAt(table[1..], expose, v)
  }

  lemma ExposedAtCons<R>(row: Row<R>, table: seq<Row<R>>, expose: R -> real, v: real)
    ensures ExposedAt([row] + table, expose, v)
            == (if expose(row.rating) == v then [row] else []) + ExposedAt(table, expose, v)
  {
    assert ([row] + table)[0] == row;
    assert ([row] + table)[1..] == table;
  }

  /** Inserting a row puts it ahead of the rows of equal exposure. */
  lemma {:induction false} InsertRowStable<R>(row: Row<R>, table: seq<Row<R>>, expose: R -> real, v: real)
    ensures ExposedAt(InsertRow(row, table, expose), expose, v)
            == (if expose(row.rating) == v then [row] else []) + ExposedAt(table, expose, v)
  {
    if table == [] || expose(row.rating) <= expose(table[0].rating) {
      ExposedAtCons(row, table, expose, v);
    } else {
      var rest := InsertRow(row, table[1..], expose);
      InsertRowStable(row, table[1..], expose, v);
      ExposedAtCons(table[0], rest, expose, v);
      ExposedAtCons(table[0], table[1..], expose, v);
      assert table == [table[0]] + table[1..];
    }
  }

  /** The sort is stable: rows of equal exposure keep their order. */
  lemma {:induction false} SortByExposeStable<R>(table: seq<Row<R>>, expose: R -> real, v: real)
    ensures ExposedAt(SortByExpose(table, expose), expose, v) == ExposedAt(table, expose, v)
  {
    if table != [] {
      SortByExposeStable(table[1..], expose, v);
      InsertRowStable(table[0], SortByExpose(table[1..], expose), expose, v);
    }
  }

  /** Every element of a sorted table is one of its input rows. */
  lemma SortedMember<R>(table: seq<Row<R>>, expose: R -> real, k: nat)
    requires k < |SortByExpose(table, expose)|
    ensures exists m :: 0 <= m < |table| && table[m] == SortByExpose(table, expose)[k]
  {
    var r := SortByExpose(table, expose);
    assert r[k] in multiset(r);
    assert r[k] in table;
  }

  lemma InsertedMember<R>(row: Row<R>, table: seq<Row<R>>, expose: R -> real, k: nat)
    requires k < |InsertRow(row, table, expose)|
    ensures InsertRow(row, table, expose)[k] == row
            || exists m :: 0 <= m < |table| && table[m] == InsertRow(row, table, expose)[k]
  {
    var r := InsertRow(row, table, expose);
    assert r[k] in multiset(r);
    if r[k] != row {
      assert r[k] in multiset(table);
      assert r[k] in table;
    }
  }

  /** Inserting a row of a new id keeps ids distinct. */
  lemma {:induction false} InsertRowDistinct<R>(row: Row<R>, table: seq<Row<R>>, expose: R -> real)
    requires DistinctIds(table)
    requires forall m :: 0 <= m < |table| ==> table[m].id != row.id
    ensures DistinctIds(InsertRow(row, table, expose))
  {
    if table != [] && expose(row.rating) > expose(table[0].rating) {
      var tail := table[1..];
      assert forall m :: 0 <= m < |tail| ==> tail[m] == table[m + 1];
      InsertRowDistinct(row, tail, expose);
      var rest := InsertRow(row, tail, expose);
      var r := InsertRow(row, table, expose);
      assert r == [table[0]] + rest;
      forall k | 0 <= k < |rest|
        ensures rest[k].id != table[0].id
      {
        InsertedMember(row, tail, expose, k);
      }
      forall i, j | 0 <= i < j < |r|
        ensures r[i].id != r[j].id
      {
        if i > 0 {
          assert r[i] == rest[i - 1] && r[j] == rest[j - 1];
        } else {
          assert r[j] == rest[j - 1];
        }
      }
    } else if table != [] {
      var r := [row] + table;
      forall i, j | 0 <= i < j < |r|
        ensures r[i].id != r[j].id
      {
        if i > 0 {
          assert r[i] == table[i - 1] && r[j] == table[j - 1];
        } else {
          assert r[j] == table[j - 1];
        }
      }
    }
  }

  /** The sort keeps ids distinct. */
  lemma {:induction false} SortByExposeDistinct<R>(table: seq<Row<R>>, expose: R -> real)
    requires DistinctIds(table)
    ensures DistinctIds(SortByExpose(table, expose))
  {
    if table != [] {
      var tail := table[1..];
      assert forall m :: 0 <= m < |tail| ==> tail[m] == table[m + 1];
      SortByExposeDistinct(tail, expose);
      var rest := SortByExpose(tail, expose);
      forall k | 0 <= k < |rest|
        ensures rest[k].id != table[0].id
      {
        SortedMember(tail, expose, k);
      }
      InsertRowDistinct(table[0], rest, expose);
    }
  }

  /** The printed table: the qualifying players ordered by expose. */
  method Table<R>(players: Registry<R>, expose: R -> real) returns (table: seq<Row<R>>)
    ensures SortedByExpose(table, expose) && DistinctIds(table)
    ensures forall row :: row in table <==>
              row.id in players && players[row.id].sets > 0 && row == RowOf(row.id, players[row.id])
  {
    var rows := Build(players);
    table := SortByExpose(rows, expose);
    SortByExposeDistinct(rows, expose);
    forall row
      ensures row in table <==>
              row.id in players && players[row.id].sets > 0 && row == RowOf(row.id, players[row.id])
    {
      calc {
        row in table;
        row in multiset(table);
        row in multiset(rows);
        row in rows;
      }
      if row.id in players && players[row.id].sets > 0 && row == RowOf(row.id, players[row.id]) {
        var i :| 0 <= i < |rows| && rows[i].id == row.id;
      }
    }
  }
}
