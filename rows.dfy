/**
 * Rows of a table with an explicit display order: an AUTOINCREMENT id, an
 * integer `sort_order`, and the row's other columns. Shared by the
 * `locations` table (one global order) and the `photos` table (one order per
 * location): listing order, the "max + 1" rule for appended rows and the
 * `sort_order := index` rewrite of a reorder are defined here once.
 */
module Rows {
  import opened Wrappers

  datatype Row<D> = Row(id: int, sortOrder: int, fields: D)

  /** `ORDER BY sort_order ASC, id ASC`: `a` may be listed before `b`. */
  predicate Precedes<D>(a: Row<D>, b: Row<D>) {
    a.sortOrder < b.sortOrder || (a.sortOrder == b.sortOrder && a.id <= b.id)
  }

  predicate Ordered<D>(s: seq<Row<D>>) {
    forall i, j :: 0 <= i < j < |s| ==> Precedes(s[i], s[j])
  }

  /** Rows in the order SQLite stores them: ascending rowid. */
  predicate IdsIncreasing<D>(s: seq<Row<D>>) {
    forall i, j :: 0 <= i < j < |s| ==> s[i].id < s[j].id
  }

  predicate DistinctIds<D>(s: seq<Row<D>>) {
    forall i, j :: 0 <= i < |s| && 0 <= j < |s| && i != j ==> s[i].id != s[j].id
  }

  lemma IncreasingIdsAreDistinct<D>(s: seq<Row<D>>)
    requires IdsIncreasing(s)
    ensures DistinctIds(s)
  {
    forall i, j | 0 <= i < |s| && 0 <= j < |s| && i != j ensures s[i].id != s[j].id {
      if i < j { assert s[i].id < s[j].id; } else { assert s[j].id < s[i].id; }
    }
  }

  // ----- Listing order -----

  /** Inserts `x` into an ordered sequence. */
  function Insert<D>(x: Row<D>, s: seq<Row<D>>): (r: seq<Row<D>>)
    requires Ordered(s)
    ensures |r| == |s| + 1
    ensures Ordered(r)
    ensures multiset(r) == multiset(s) + multiset{x}
  {
    if s == [] then [x]
    else if Precedes(x, s[0]) then [x] + s
    else
      var rest := Insert(x, s[1..]);
      assert s == [s[0]] + s[1..];
      PrecedesAll(s[0], rest, s[1..], x);
      [s[0]] + rest
  }

  lemma PrecedesAll<D>(h: Row<D>, r: seq<Row<D>>, s: seq<Row<D>>, x: Row<D>)
    requires multiset(r) == multiset(s) + multiset{x}
    requires Precedes(h, x) && forall k :: 0 <= k < |s| ==> Precedes(h, s[k])
    ensures forall k :: 0 <= k < |r| ==> Precedes(h, r[k])
  {
    forall k | 0 <= k < |r| ensures Precedes(h, r[k]) {
      assert r[k] in multiset(r);
      if r[k] != x {
        assert r[k] in multiset(s);
      }
    }
  }

  /** The rows of `s` listed `ORDER BY sort_order ASC, id ASC`. */
  function SortByOrder<D>(s: seq<Row<D>>): (r: seq<Row<D>>)
    ensures |r| == |s|
    ensures Ordered(r)
    ensures multiset(r) == multiset(s)
  {
    if s == [] then []
    else
      assert s == [s[0]] + s[1..];
      Insert(s[0], SortByOrder(s[1..]))
  }

  /** Two sequences with the same elements hold the same rows. */
  lemma SameMembers<D>(a: seq<Row<D>>, b: seq<Row<D>>)
    requires multiset(a) == multiset(b)
    ensures forall x :: x in a <==> x in b
  {
    forall x ensures x in a <==> x in b {
      assert x in a <==> x in multiset(a);
      assert x in b <==> x in multiset(b);
    }
  }

  /** Rows already in listing order are listed as they are. */
  lemma {:induction false} SortOfOrdered<D>(s: seq<Row<D>>)
    requires Ordered(s)
    ensures SortByOrder(s) == s
  {
    if s != [] {
      SortOfOrdered(s[1..]);
      assert s == [s[0]] + s[1..];
      if |s| > 1 {
        assert Precedes(s[0], s[1]);
      }
    }
  }

  lemma DistinctTail<D>(s: seq<Row<D>>)
    requires s != [] && DistinctIds(s)
    ensures DistinctIds(s[1..])
  {
    forall i, j | 0 <= i < |s| - 1 && 0 <= j < |s| - 1 && i != j ensures s[1..][i].id != s[1..][j].id {
      assert s[1..][i] == s[i + 1] && s[1..][j] == s[j + 1];
    }
  }

  lemma OrderedTail<D>(s: seq<Row<D>>)
    requires s != [] && Ordered(s)
    ensures Ordered(s[1..])
  {
    forall i, j | 0 <= i < j < |s| - 1 ensures Precedes(s[1..][i], s[1..][j]) {
      assert s[1..][i] == s[i + 1] && s[1..][j] == s[j + 1];
    }
  }

  lemma RemoveAt<T>(a: seq<T>, p: int)
    requires 0 <= p < |a|
    ensures multiset(a[..p] + a[p + 1..]) == multiset(a) - multiset{a[p]}
  {
    assert a == a[..p] + [a[p]] + a[p + 1..];
  }

  /** Reordering keeps ids distinct. */
  lemma {:induction false} DistinctIdsPermutation<D>(a: seq<Row<D>>, b: seq<Row<D>>)
    requires multiset(a) == multiset(b)
    requires DistinctIds(a)
    ensures DistinctIds(b)
    decreases |b|
  {
    if b != [] {
      var p := PermutationHead(a, b);
      var a' := a[..p] + a[p + 1..];
      DistinctRemove(a, p);
      DistinctIdsPermutation(a', b[1..]);
      HeadIdFresh(a, p, b);
      DistinctCons(b);
    }
  }

  /** Where `b`'s first element sits in `a`, and what is left of both once it is gone. */
  lemma PermutationHead<T>(a: seq<T>, b: seq<T>) returns (p: int)
    requires multiset(a) == multiset(b) && b != []
    ensures 0 <= p < |a| && a[p] == b[0]
    ensures multiset(a[..p] + a[p + 1..]) == multiset(b[1..])
  {
    assert b[0] in multiset(a);
    p :| 0 <= p < |a| && a[p] == b[0];
    assert multiset(b) == multiset{b[0]} + multiset(b[1..]) by {
      assert b == [b[0]] + b[1..];
    }
    RemoveAt(a, p);
  }

  /** The row moved to the front of `b` has an id no later row of `b` has. */
  lemma HeadIdFresh<D>(a: seq<Row<D>>, p: int, b: seq<Row<D>>)
    requires 0 <= p < |a| && DistinctIds(a) && b != [] && a[p] == b[0]
    requires multiset(a[..p] + a[p + 1..]) == multiset(b[1..])
    ensures forall j :: 1 <= j < |b| ==> b[j].id != b[0].id
  {
    var a' := a[..p] + a[p + 1..];
    forall j | 1 <= j < |b| ensures b[j].id != b[0].id {
      assert b[j] == b[1..][j - 1];
      assert b[j] in multiset(a');
      var q :| 0 <= q < |a'| && a'[q] == b[j];
      DistinctRemoveAt(a, p, q);
    }
  }

  /** Removing one row keeps ids distinct, and no remaining row has the removed id. */
  lemma DistinctRemove<D>(a: seq<Row<D>>, p: int)
    requires 0 <= p < |a| && DistinctIds(a)
    ensures DistinctIds(a[..p] + a[p + 1..])
  {
    var a' := a[..p] + a[p + 1..];
    forall i, j | 0 <= i < |a'| && 0 <= j < |a'| && i != j ensures a'[i].id != a'[j].id {
      var i' := if i < p then i else i + 1;
      var j' := if j < p then j else j + 1;
      assert a'[i] == a[i'] && a'[j] == a[j'];
    }
  }

  lemma DistinctRemoveAt<D>(a: seq<Row<D>>, p: int, q: int)
    requires 0 <= p < |a| && DistinctIds(a)
    requires 0 <= q < |a| - 1
    ensures (a[..p] + a[p + 1..])[q].id != a[p].id
  {
    var q' := if q < p then q else q + 1;
    assert (a[..p] + a[p + 1..])[q] == a[q'];
  }

  lemma DistinctCons<D>(b: seq<Row<D>>)
    requires b != [] && DistinctIds(b[1..])
    requires forall j :: 1 <= j < |b| ==> b[j].id != b[0].id
    ensures DistinctIds(b)
  {
    forall i, j | 0 <= i < |b| && 0 <= j < |b| && i != j ensures b[i].id != b[j].id {
      if i > 0 && j > 0 {
        assert b[i] == b[1..][i - 1] && b[j] == b[1..][j - 1];
      }
    }
  }

  /** A row whose `sort_order` exceeds every other's is listed last. */
  lemma {:induction false} AppendGreatest<D>(s: seq<Row<D>>, x: Row<D>)
    requires forall k :: 0 <= k < |s| ==> s[k].sortOrder < x.sortOrder
    ensures SortByOrder(s + [x]) == SortByOrder(s) + [x]
  {
    if s == [] {
      assert SortByOrder([x]) == Insert(x, []);
    } else {
      var rest := s[1..];
      assert s + [x] == [s[0]] + (rest + [x]);
      assert (s + [x])[1..] == rest + [x];
      AppendGreatest(rest, x);
      var t := SortByOrder(rest);
      forall k | 0 <= k < |t| ensures t[k].sortOrder < x.sortOrder {
        assert t[k] in multiset(rest);
      }
      OrderedAppend(t, x);
      InsertBeforeGreatest(s[0], t, x);
    }
  }

  lemma OrderedAppend<D>(s: seq<Row<D>>, x: Row<D>)
    requires Ordered(s)
    requires forall k :: 0 <= k < |s| ==> s[k].sortOrder < x.sortOrder
    ensures Ordered(s + [x])
  {
    var b := s + [x];
    forall i, j | 0 <= i < j < |b| ensures Precedes(b[i], b[j]) {
      assert b[i] == s[i];
      if j < |s| { assert b[j] == s[j]; }
    }
  }

  lemma {:induction false} InsertBeforeGreatest<D>(y: Row<D>, t: seq<Row<D>>, x: Row<D>)
    requires Ordered(t) && Ordered(t + [x])
    requires y.sortOrder < x.sortOrder
    ensures Insert(y, t + [x]) == Insert(y, t) + [x]
  {
    if t != [] {
      assert (t + [x])[0] == t[0];
      if !Precedes(y, t[0]) {
        assert (t + [x])[1..] == t[1..] + [x];
        OrderedTail(t);
        OrderedTail(t + [x]);
        InsertBeforeGreatest(y, t[1..], x);
      }
    }
  }

  // ----- Appending: MAX(sort_order) + 1 -----

  /** `SELECT MAX(sort_order)` over the given rows (SQL NULL when there are none). */
  function MaxOrder<D>(s: seq<Row<D>>): (m: Option<int>)
    ensures m.None? <==> s == []
    ensures m.Some? ==> exists i :: 0 <= i < |s| && s[i].sortOrder == m.value
    ensures m.Some? ==> forall i :: 0 <= i < |s| ==> s[i].sortOrder <= m.value
  {
    if s == [] then None
    else
      match MaxOrder(s[1..])
      case None => Some(s[0].sortOrder)
      case Some(m) =>
        assert forall i :: 1 <= i < |s| ==> s[i] == s[1..][i - 1];
        Some(if s[0].sortOrder > m then s[0].sortOrder else m)
  }

  /** The order given to a new row: one past the largest in its scope, or 0 in an empty scope. */
  function NextOrder<D>(s: seq<Row<D>>): (n: int)
    ensures s == [] ==> n == 0
    ensures forall i :: 0 <= i < |s| ==> s[i].sortOrder < n
    ensures s != [] ==> exists i :: 0 <= i < |s| && s[i].sortOrder == n - 1
  {
    match MaxOrder(s)
    case None => 0
    case Some(m) => m + 1
  }

  // ----- Reordering: sort_order := index -----

  /**
   * A value bound to the `id = ?` placeholder of a sort statement: an integer,
   * a value that equals no integer id (null, a fraction, a non-numeric string),
   * or one the driver refuses to bind (a boolean), which throws.
   */
  datatype SortParam = Integer(n: int) | NoMatch | Unbindable

  predicate Bindable(ids: seq<SortParam>) {
    forall k :: 0 <= k < |ids| ==> !ids[k].Unbindable?
  }

  /** `UPDATE ... SET sort_order = index WHERE id = p`. */
  function SetOrder<D>(rows: seq<Row<D>>, p: SortParam, index: int): seq<Row<D>>
  {
    seq(|rows|, k requires 0 <= k < |rows| =>
      if p == Integer(rows[k].id) then rows[k].(sortOrder := index) else rows[k])
  }

  /** The table after running the sort statement once per listed id, in list order. */
  function Reordered<D>(rows: seq<Row<D>>, ids: seq<SortParam>): (r: seq<Row<D>>)
    ensures |r| == |rows|
    ensures forall k :: 0 <= k < |rows| ==> r[k].id == rows[k].id && r[k].fields == rows[k].fields
    decreases |ids|
  {
    if ids == [] then rows
    else SetOrder(Reordered(rows, ids[..|ids| - 1]), ids[|ids| - 1], |ids| - 1)
  }

  /** The last position of id `n` in the list, or -1 when it is not listed. */
  function LastIndexOf(ids: seq<SortParam>, n: int): (r: int)
    ensures -1 <= r < |ids|
    ensures r == -1 <==> Integer(n) !in ids
    ensures r >= 0 ==> ids[r] == Integer(n)
    ensures forall j :: r < j < |ids| ==> ids[j] != Integer(n)
  {
    if ids == [] then -1
    else if ids[|ids| - 1] == Integer(n) then |ids| - 1
    else
      var r := LastIndexOf(ids[..|ids| - 1], n);
      assert ids == ids[..|ids| - 1] + [ids[|ids| - 1]];
      r
  }

  /**
   * After a reorder each listed row's `sort_order` is its (last) index in the
   * list; unlisted rows keep theirs, and no other column changes.
   */
  lemma {:induction false} ReorderedAt<D>(rows: seq<Row<D>>, ids: seq<SortParam>, k: int)
    requires 0 <= k < |rows|
    ensures Reordered(rows, ids)[k] ==
      rows[k].(sortOrder := if Integer(rows[k].id) in ids then LastIndexOf(ids, rows[k].id) else rows[k].sortOrder)
    decreases |ids|
  {
    if ids != [] {
      var init := ids[..|ids| - 1];
      ReorderedAt(rows, init, k);
      assert ids == init + [ids[|ids| - 1]];
    }
  }

  /** Strictly increasing integers drawn from [0, n), n of them, are 0, 1, ..., n - 1. */
  lemma {:induction false} IncreasingFillsRange(s: seq<int>)
    requires forall i, j :: 0 <= i < j < |s| ==> s[i] < s[j]
    requires forall i :: 0 <= i < |s| ==> 0 <= s[i] < |s|
    ensures forall i :: 0 <= i < |s| ==> s[i] == i
  {
    forall i | 0 <= i < |s| ensures s[i] == i {
      AtLeastIndex(s, i);
      AtMostIndex(s, i);
    }
  }

  lemma {:induction false} AtLeastIndex(s: seq<int>, i: int)
    requires 0 <= i < |s|
    requires forall a, b :: 0 <= a < b < |s| ==> s[a] < s[b]
    requires forall a :: 0 <= a < |s| ==> 0 <= s[a]
    ensures s[i] >= i
    decreases i
  {
    if i > 0 { AtLeastIndex(s, i - 1); }
  }

  lemma {:induction false} AtMostIndex(s: seq<int>, i: int)
    requires 0 <= i < |s|
    requires forall a, b :: 0 <= a < b < |s| ==> s[a] < s[b]
    requires forall a :: 0 <= a < |s| ==> s[a] < |s|
    ensures s[i] <= i
    decreases |s| - i
  {
    if i < |s| - 1 { AtMostIndex(s, i + 1); }
  }

  /**
   * A reorder that lists every row exactly once makes the listing follow the
   * list: the i-th row listed afterwards is the one whose id was at index i,
   * and its `sort_order` is i.
   */
  lemma ReorderThenList<D>(rows: seq<Row<D>>, ids: seq<SortParam>)
    requires DistinctIds(rows)
    requires |ids| == |rows|
    requires forall i, j :: 0 <= i < j < |ids| ==> ids[i] != ids[j]
    requires forall k :: 0 <= k < |rows| ==> Integer(rows[k].id) in ids
    ensures var listed := SortByOrder(Reordered(rows, ids));
      forall i :: 0 <= i < |ids| ==> ids[i] == Integer(listed[i].id) && listed[i].sortOrder == i
  {
    var r := Reordered(rows, ids);
    var listed := SortByOrder(r);
    assert DistinctIds(listed) by {
      assert DistinctIds(r);
      DistinctIdsPermutation(r, listed);
    }
    ListedAtOwnIndex(rows, ids, listed);
    OrdersFillRange(listed, ids);
  }

  /** Listed rows whose orders index their ids, in listing order, carry the orders 0, 1, 2, ... */
  lemma OrdersFillRange<D>(listed: seq<Row<D>>, ids: seq<SortParam>)
    requires Ordered(listed) && DistinctIds(listed) && |listed| == |ids|
    requires forall i :: 0 <= i < |listed| ==>
      0 <= listed[i].sortOrder < |ids| && ids[listed[i].sortOrder] == Integer(listed[i].id)
    ensures forall i :: 0 <= i < |ids| ==> ids[i] == Integer(listed[i].id) && listed[i].sortOrder == i
  {
    var orders := seq(|listed|, i requires 0 <= i < |listed| => listed[i].sortOrder);
    OrdersIncrease(listed, ids);
    IncreasingFillsRange(orders);
    forall i | 0 <= i < |ids| ensures ids[i] == Integer(listed[i].id) && listed[i].sortOrder == i {
      assert orders[i] == i;
    }
  }

  /** After a reorder listing every row, each row's `sort_order` is the index of its id. */
  lemma ListedAtOwnIndex<D>(rows: seq<Row<D>>, ids: seq<SortParam>, listed: seq<Row<D>>)
    requires multiset(listed) == multiset(Reordered(rows, ids))
    requires forall k :: 0 <= k < |rows| ==> Integer(rows[k].id) in ids
    ensures forall i :: 0 <= i < |listed| ==>
      0 <= listed[i].sortOrder < |ids| && ids[listed[i].sortOrder] == Integer(listed[i].id)
  {
    var r := Reordered(rows, ids);
    forall i | 0 <= i < |listed|
      ensures 0 <= listed[i].sortOrder < |ids| && ids[listed[i].sortOrder] == Integer(listed[i].id)
    {
      assert listed[i] in multiset(r);
      var k :| 0 <= k < |r| && r[k] == listed[i];
      ReorderedAt(rows, ids, k);
    }
  }

  /** Distinct rows sitting at the index of their own id have distinct, hence increasing, orders. */
  lemma OrdersIncrease<D>(listed: seq<Row<D>>, ids: seq<SortParam>)
    requires Ordered(listed) && DistinctIds(listed)
    requires forall i :: 0 <= i < |listed| ==>
      0 <= listed[i].sortOrder < |ids| && ids[listed[i].sortOrder] == Integer(listed[i].id)
    ensures forall i, j :: 0 <= i < j < |listed| ==> listed[i].sortOrder < listed[j].sortOrder
  {
    forall i, j | 0 <= i < j < |listed| ensures listed[i].sortOrder < listed[j].sortOrder {
      assert Precedes(listed[i], listed[j]);
      assert listed[i].id != listed[j].id;
    }
  }

  // ----- Lookups and deletes by id -----

  /** `SELECT * ... WHERE id = ?`. */
  function FindById<D>(rows: seq<Row<D>>, id: int): (r: Option<Row<D>>)
    ensures r.None? <==> forall k :: 0 <= k < |rows| ==> rows[k].id != id
    ensures r.Some? ==> r.value in rows && r.value.id == id
  {
    if rows == [] then None
    else if rows[0].id == id then Some(rows[0])
    else
      var r := FindById(rows[1..], id);
      assert forall k :: 1 <= k < |rows| ==> rows[k] == rows[1..][k - 1];
      r
  }

  /** Every id is at most `bound`, the table's AUTOINCREMENT counter. */
  predicate IdsAtMost<D>(s: seq<Row<D>>, bound: int) {
    forall k :: 0 <= k < |s| ==> s[k].id <= bound
  }

  lemma IdsAtMostSubset<D>(s: seq<Row<D>>, r: seq<Row<D>>, bound: int)
    requires IdsAtMost(s, bound)
    requires forall k :: 0 <= k < |r| ==> r[k] in s
    ensures IdsAtMost(r, bound)
  {
    forall k | 0 <= k < |r| ensures r[k].id <= bound {
      var j :| 0 <= j < |s| && s[j] == r[k];
    }
  }

  lemma FindAfterAppend<D>(rows: seq<Row<D>>, x: Row<D>, id: int)
    requires FindById(rows, id).Some?
    ensures FindById(rows + [x], id).Some?
  {
    var k :| 0 <= k < |rows| && rows[k].id == id;
    assert (rows + [x])[k] == rows[k];
  }

  /** Lookups only see ids: two tables with the same ids position by position find the same ids. */
  lemma FindSameIds<D>(a: seq<Row<D>>, b: seq<Row<D>>, id: int)
    requires |a| == |b| && forall k :: 0 <= k < |a| ==> a[k].id == b[k].id
    ensures FindById(a, id).Some? == FindById(b, id).Some?
  {
    if FindById(a, id).Some? {
      var k :| 0 <= k < |a| && a[k].id == id;
      assert b[k].id == id;
    }
    if FindById(b, id).Some? {
      var k :| 0 <= k < |b| && b[k].id == id;
      assert a[k].id == id;
    }
  }

  /** `DELETE ... WHERE id = ?`: the rows with other ids, in their stored order. */
  function WithoutId<D>(rows: seq<Row<D>>, id: int): (r: seq<Row<D>>)
    ensures forall k :: 0 <= k < |r| ==> r[k] in rows && r[k].id != id
  {
    if rows == [] then []
    else
      var rest := WithoutId(rows[1..], id);
      assert forall k :: 1 <= k < |rows| ==> rows[k] == rows[1..][k - 1];
      if rows[0].id == id then rest else [rows[0]] + rest
  }

  /** Every row with another id survives the delete. */
  lemma {:induction false} WithoutIdComplete<D>(rows: seq<Row<D>>, id: int, k: int)
    requires 0 <= k < |rows| && rows[k].id != id
    ensures rows[k] in WithoutId(rows, id)
  {
    if k > 0 {
      assert rows[1..][k - 1] == rows[k];
      WithoutIdComplete(rows[1..], id, k - 1);
    }
  }

  /** The delete keeps rowid order. */
  lemma {:induction false} WithoutIdIncreasing<D>(rows: seq<Row<D>>, id: int)
    requires IdsIncreasing(rows)
    ensures IdsIncreasing(WithoutId(rows, id))
  {
    if rows != [] {
      var tail := rows[1..];
      assert IdsIncreasing(tail) by {
        assert forall k :: 0 <= k < |tail| ==> tail[k] == rows[k + 1];
      }
      WithoutIdIncreasing(tail, id);
      var rest := WithoutId(tail, id);
      forall k | 0 <= k < |rest| ensures rows[0].id < rest[k].id {
        var j :| 0 <= j < |tail| && tail[j] == rest[k];
        assert tail[j] == rows[j + 1];
      }
    }
  }

  /** Deleting an id no row has changes nothing. */
  lemma {:induction false} WithoutMissingId<D>(rows: seq<Row<D>>, id: int)
    requires forall k :: 0 <= k < |rows| ==> rows[k].id != id
    ensures WithoutId(rows, id) == rows
  {
    if rows != [] {
      var tail := rows[1..];
      assert forall k :: 0 <= k < |tail| ==> tail[k] == rows[k + 1];
      WithoutMissingId(tail, id);
      assert [rows[0]] + tail == rows;
    }
  }

  /** A non-empty sequence is its prefix followed by its last element. */
  lemma SnocOfLast<T>(q: seq<T>)
    requires q != []
    ensures q[..|q| - 1] + [q[|q| - 1]] == q
  {
  }

  // ----- Rows inserted one after another -----

  /** Rows inserted in order after the counter stood at `base`: ids `base + 1, ...`, `sort_order` their position. */
  function Numbered<D>(fs: seq<D>, base: int): (r: seq<Row<D>>)
    ensures |r| == |fs|
  {
    seq(|fs|, j requires 0 <= j < |fs| => Row(base + 1 + j, j, fs[j]))
  }

  /** Row `j` of `q` has `sort_order` `j` and the columns `fs[j]`. */
  ghost predicate Lists<D>(q: seq<Row<D>>, fs: seq<D>) {
    |q| == |fs| && forall j :: 0 <= j < |q| ==> q[j].sortOrder == j && q[j].fields == fs[j]
  }

  lemma NumberedAppend<D>(fs: seq<D>, x: D, base: int)
    ensures Numbered(fs + [x], base) == Numbered(fs, base) + [Row(base + 1 + |fs|, |fs|, x)]
  {
    assert forall j :: 0 <= j < |fs| ==> (fs + [x])[j] == fs[j];
  }

  /** Rows whose `sort_order` is their position are listed as they stand. */
  lemma ListsAreListed<D>(q: seq<Row<D>>, fs: seq<D>)
    requires Lists(q, fs)
    ensures SortByOrder(q) == q
  {
    assert Ordered(q) by {
      forall i, j | 0 <= i < j < |q| ensures Precedes(q[i], q[j]) {
        assert q[i].sortOrder == i && q[j].sortOrder == j;
      }
    }
    SortOfOrdered(q);
  }
}
