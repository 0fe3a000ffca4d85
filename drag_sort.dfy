/**
 * `initDragSort`, defined identically in admin/admin.js and admin/photos.js:
 * the cards of a container can be dragged; while dragging over another card
 * the dragged card is moved just before it (pointer left of the card's
 * middle) or just after it, and when the drag ends the cards' ids are sent
 * in their new order. The container is modelled as the sequence of its
 * card elements; element identity is the card's `key`.
 */
module DragSort {
  import opened Wrappers
  import Rows

  /** A card element: its identity and its `data-id`. */
  datatype Card = Card(key: int, id: string)

  /** An element appears once among a container's children. */
  predicate Distinct(s: seq<Card>) {
    forall i, j :: 0 <= i < j < |s| ==> s[i] != s[j]
  }

  function IndexOf(s: seq<Card>, x: Card): (i: nat)
    requires x in s
    ensures i < |s| && s[i] == x && x !in s[..i]
  {
    if s[0] == x then 0
    else
      var i := 1 + IndexOf(s[1..], x);
      assert s[..i] == [s[0]] + s[1..][..i - 1];
      i
  }

  lemma IndexOfUnique(s: seq<Card>, q: int)
    requires Distinct(s) && 0 <= q < |s|
    ensures IndexOf(s, s[q]) == q
  {
  }

  /** The children once `x` is taken out. */
  function Without(s: seq<Card>, x: Card): (w: seq<Card>)
    requires x in s
    ensures |w| == |s| - 1
  {
    var p := IndexOf(s, x);
    s[..p] + s[p + 1..]
  }

  lemma DistinctWithout(s: seq<Card>, x: Card)
    requires Distinct(s) && x in s
    ensures Distinct(Without(s, x)) && x !in Without(s, x)
    ensures multiset(Without(s, x)) == multiset(s) - multiset{x}
  {
    var p := IndexOf(s, x);
    var w := Without(s, x);
    forall i, j | 0 <= i < j < |w| ensures w[i] != w[j] {
      var i' := if i < p then i else i + 1;
      var j' := if j < p then j else j + 1;
      assert w[i] == s[i'] && w[j] == s[j'];
    }
    forall i | 0 <= i < |w| ensures w[i] != x {
      var i' := if i < p then i else i + 1;
      assert w[i] == s[i'];
    }
    WithoutMultiset(s, x);
  }

  lemma WithoutMultiset(s: seq<Card>, x: Card)
    requires x in s
    ensures multiset(Without(s, x)) == multiset(s) - multiset{x}
  {
    var p := IndexOf(s, x);
    assert s[p] == x;
    assert Without(s, x) == s[..p] + s[p + 1..];
    Rows.RemoveAt(s, p);
  }

  /** Where a remaining child sits once `d` is taken out. */
  lemma IndexInWithout(s: seq<Card>, d: Card, q: int)
    requires Distinct(s) && d in s && 0 <= q < |s| && s[q] != d
    ensures s[q] in Without(s, d)
    ensures IndexOf(Without(s, d), s[q]) == if q < IndexOf(s, d) then q else q - 1
  {
    var p := IndexOf(s, d);
    var w := Without(s, d);
    var q' := if q < p then q else q - 1;
    assert w[q'] == s[q];
    DistinctWithout(s, d);
    IndexOfUnique(w, q');
  }

  /** `node.nextSibling` among the cards: `None` for the last one. */
  function NextSibling(s: seq<Card>, t: Card): (r: Option<Card>)
    requires t in s
    ensures r.Some? ==> r.value in s
  {
    var i := IndexOf(s, t);
    if i + 1 < |s| then Some(s[i + 1]) else None
  }

  /** The children `w` with `d` put at position `k`. */
  function InsertAt(w: seq<Card>, k: int, d: Card): (r: seq<Card>)
    requires 0 <= k <= |w|
    ensures |r| == |w| + 1 && r[k] == d
  {
    w[..k] + [d] + w[k..]
  }

  /**
   * Where `container.insertBefore(node, child)` puts a node that is already
   * one of the children, as a position among the other children: a child
   * equal to the node itself stands for the node's next sibling (the DOM
   * standard's insert algorithm), and a null child means last.
   */
  function Slot(s: seq<Card>, node: Card, child: Option<Card>): (k: int)
    requires Distinct(s) && node in s
    requires child.Some? ==> child.value in s
    ensures 0 <= k <= |s| - 1
  {
    var c := if child == Some(node) then NextSibling(s, node) else child;
    if c.None? then |s| - 1
    else
      var q := IndexOf(s, c.value);
      assert q != IndexOf(s, node) by {
        if child == Some(node) {
          IndexOfUnique(s, IndexOf(s, node) + 1);
        }
      }
      IndexInWithout(s, node, q);
      IndexOf(Without(s, node), c.value)
  }

  /**
   * `container.insertBefore(node, child)` for a node that is already one of
   * the children: the node is taken out and put back at its slot.
   */
  function InsertBefore(s: seq<Card>, node: Card, child: Option<Card>): (r: seq<Card>)
    requires Distinct(s) && node in s
    requires child.Some? ==> child.value in s
    ensures |r| == |s| && multiset(r) == multiset(s)
    ensures r[Slot(s, node, child)] == node
  {
    var w := Without(s, node);
    var k := Slot(s, node, child);
    WithoutMultiset(s, node);
    InsertAtMultiset(w, k, node);
    PutBack(s, w, node);
    InsertAt(w, k, node)
  }

  lemma InsertAtMultiset(w: seq<Card>, k: int, d: Card)
    requires 0 <= k <= |w|
    ensures multiset(InsertAt(w, k, d)) == multiset(w) + multiset{d}
  {
    assert w[..k] + w[k..] == w;
  }

  lemma PutBack(s: seq<Card>, w: seq<Card>, x: Card)
    requires x in s && multiset(w) == multiset(s) - multiset{x}
    ensures multiset(w) + multiset{x} == multiset(s)
  {
    assert x in multiset(s);
  }

  /** The slot right before `t` (or right after it) once `d` is taken out. */
  function PlacedSlot(s: seq<Card>, d: Card, t: Card, after: bool): (k: int)
    requires Distinct(s) && d in s && t in s && d != t
    ensures 0 <= k <= |s| - 1
  {
    IndexInWithout(s, d, IndexOf(s, t));
    IndexOf(Without(s, d), t) + (if after then 1 else 0)
  }

  /**
   * The intended effect of a dragover: `d` leaves its place and is put
   * immediately before `t`, or immediately after it.
   */
  function Placed(s: seq<Card>, d: Card, t: Card, after: bool): seq<Card>
    requires Distinct(s) && d in s && t in s && d != t
  {
    InsertAt(Without(s, d), PlacedSlot(s, d, t, after), d)
  }

  /**
   * The dragover handler's two `insertBefore` calls, before the target or
   * before the target's next sibling, are exactly `Placed`. This covers the
   * case where the next sibling is the dragged card itself, which leaves
   * the order unchanged.
   */
  lemma DragOverPlaced(s: seq<Card>, d: Card, t: Card, beforeMid: bool)
    requires Distinct(s) && d in s && t in s && d != t
    ensures InsertBefore(s, d, if beforeMid then Some(t) else NextSibling(s, t)) == Placed(s, d, t, !beforeMid)
  {
    var child := if beforeMid then Some(t) else NextSibling(s, t);
    assert Slot(s, d, child) == PlacedSlot(s, d, t, !beforeMid) by {
      SlotIsPlacedSlot(s, d, t, beforeMid);
    }
  }

  lemma SlotIsPlacedSlot(s: seq<Card>, d: Card, t: Card, beforeMid: bool)
    requires Distinct(s) && d in s && t in s && d != t
    ensures Slot(s, d, if beforeMid then Some(t) else NextSibling(s, t)) == PlacedSlot(s, d, t, !beforeMid)
  {
    var p := IndexOf(s, d);
    var j := IndexOf(s, t);
    IndexInWithout(s, d, j);
    if !beforeMid && j + 1 < |s| {
      IndexOfUnique(s, j + 1);
      if j + 1 == p {
        assert NextSibling(s, t) == Some(d);
        if p + 1 < |s| {
          IndexOfUnique(s, p + 1);
          IndexInWithout(s, d, p + 1);
        }
      } else {
        IndexInWithout(s, d, j + 1);
      }
    }
  }

  lemma DistinctInsert(w: seq<Card>, k: int, d: Card)
    requires Distinct(w) && d !in w && 0 <= k <= |w|
    ensures Distinct(InsertAt(w, k, d))
  {
    var r := InsertAt(w, k, d);
    forall i, j | 0 <= i < j < |r| ensures r[i] != r[j] {
      if i != k && j != k {
        var i' := if i < k then i else i - 1;
        var j' := if j < k then j else j - 1;
        assert r[i] == w[i'] && r[j] == w[j'];
      } else if i == k {
        assert r[j] == w[j - 1];
      } else {
        assert r[i] == w[i];
      }
    }
  }

  /** Taking the inserted card out again gives the other cards back, in their order. */
  lemma InsertAtWithout(w: seq<Card>, k: int, d: Card)
    requires Distinct(w) && d !in w && 0 <= k <= |w|
    ensures d in InsertAt(w, k, d) && Without(InsertAt(w, k, d), d) == w
    ensures multiset(InsertAt(w, k, d)) == multiset(w) + multiset{d}
  {
    var r := InsertAt(w, k, d);
    DistinctInsert(w, k, d);
    IndexOfUnique(r, k);
    assert r[..k] == w[..k] && r[k + 1..] == w[k..];
    assert w == w[..k] + w[k..];
  }

  /**
   * A dragover only reorders: the cards are a permutation of the previous
   * ones, still distinct, and the cards other than `d` keep their relative
   * order.
   */
  lemma PlacedPermutes(s: seq<Card>, d: Card, t: Card, after: bool)
    requires Distinct(s) && d in s && t in s && d != t
    ensures multiset(Placed(s, d, t, after)) == multiset(s)
    ensures Distinct(Placed(s, d, t, after))
    ensures d in Placed(s, d, t, after) && Without(Placed(s, d, t, after), d) == Without(s, d)
  {
    var w := Without(s, d);
    var k := PlacedSlot(s, d, t, after);
    DistinctWithout(s, d);
    DistinctInsert(w, k, d);
    InsertAtWithout(w, k, d);
  }

  /** After a dragover, `d` sits right before `t`, or right after it. */
  lemma PlacedAdjacent(s: seq<Card>, d: Card, t: Card, after: bool)
    requires Distinct(s) && d in s && t in s && d != t
    ensures var r := Placed(s, d, t, after);
            var i := IndexOf(r, d);
            if after then 0 < i && r[i - 1] == t else i + 1 < |r| && r[i + 1] == t
  {
    IndexInWithout(s, d, IndexOf(s, t));
    var w := Without(s, d);
    var k := PlacedSlot(s, d, t, after);
    var r := InsertAt(w, k, d);
    PlacedPermutes(s, d, t, after);
    IndexOfUnique(r, k);
    if after {
      assert r[k - 1] == w[k - 1];
    } else {
      assert r[k + 1] == w[k];
    }
  }

  /** The `data-id`s of the cards, in order. */
  function Ids(s: seq<Card>): (ids: seq<string>)
    ensures |ids| == |s|
    ensures forall i :: 0 <= i < |s| ==> ids[i] == s[i].id
  {
    if s == [] then [] else [s[0].id] + Ids(s[1..])
  }

  lemma {:induction false} IdsAppend(x: seq<Card>, y: seq<Card>)
    ensures Ids(x + y) == Ids(x) + Ids(y)
  {
    if x == [] {
      assert x + y == y;
    } else {
      assert (x + y)[1..] == x[1..] + y;
      IdsAppend(x[1..], y);
    }
  }

  lemma SplitAt<T>(a: seq<T>, p: int)
    requires 0 <= p < |a|
    ensures a == a[..p] + [a[p]] + a[p + 1..]
  {
  }

  lemma IdsRemoveAt(a: seq<Card>, p: int)
    requires 0 <= p < |a|
    ensures multiset(Ids(a)) == multiset(Ids(a[..p] + a[p + 1..])) + multiset{a[p].id}
  {
    var u, v := a[..p], a[p + 1..];
    SplitAt(a, p);
    IdsAppend(u + [a[p]], v);
    IdsAppend(u, [a[p]]);
    IdsAppend(u, v);
  }

  /** Permuted cards give permuted ids. */
  lemma {:induction false} IdsPermutation(a: seq<Card>, b: seq<Card>)
    requires multiset(a) == multiset(b)
    ensures multiset(Ids(a)) == multiset(Ids(b))
    decreases |b|
  {
    if b != [] {
      var p := Rows.PermutationHead(a, b);
      IdsPermutation(a[..p] + a[p + 1..], b[1..]);
      IdsRemoveAt(a, p);
      IdsRemoveAt(b, 0);
      assert b[..0] + b[1..] == b[1..];
    }
  }

  /** One container set up by `initDragSort`, with the `dragItem` it tracks. */
  class SortableList {
    var cards: seq<Card>
    var dragItem: Option<Card>
    /** The cards as rendered, before any drag. */
    ghost var initial: seq<Card>

    ghost predicate Valid()
      reads this
    {
      Distinct(cards) && multiset(cards) == multiset(initial) &&
      (dragItem.Some? ==> dragItem.value in cards)
    }

    constructor (cards: seq<Card>)
      requires Distinct(cards)
      ensures Valid() && this.cards == cards && initial == cards && dragItem.None?
    {
      this.cards := cards;
      initial := cards;
      dragItem := None;
    }

    /** The `dragstart` listener of `item`. */
    method DragStart(item: Card)
      requires Valid() && item in cards
      modifies this`dragItem
      ensures Valid() && dragItem == Some(item)
    {
      dragItem := Some(item);
    }

    /**
     * The `dragover` listener of `item`: nothing without a drag or over the
     * dragged card itself, otherwise the dragged card moves next to `item`.
     */
    method DragOver(item: Card, beforeMid: bool)
      requires Valid() && item in cards
      modifies this`cards
      ensures Valid()
      ensures dragItem.None? || dragItem.value == item ==> cards == old(cards)
      ensures dragItem.Some? && dragItem.value != item ==> cards == Placed(old(cards), dragItem.value, item, !beforeMid)
    {
      if dragItem.None? || dragItem.value == item {
        return;
      }
      Move(dragItem.value, item, beforeMid);
    }

    /** `container.insertBefore(dragItem, item)` or `(dragItem, item.nextSibling)`. */
    method Move(d: Card, item: Card, beforeMid: bool)
      requires Valid() && dragItem == Some(d) && item in cards && d != item
      modifies this`cards
      ensures Valid()
      ensures cards == Placed(old(cards), d, item, !beforeMid)
    {
      var child := if beforeMid then Some(item) else NextSibling(cards, item);
      var moved := InsertBefore(cards, d, child);
      DragOverPlaced(cards, d, item, beforeMid);
      PlacedPermutes(cards, d, item, !beforeMid);
      cards := moved;
    }

    /**
     * The `dragend` listener: the drag is over and the ids sent to the
     * server are the cards' ids in their current order, a permutation of
     * the ids as rendered.
     */
    method DragEnd() returns (ids: seq<string>)
      requires Valid()
      modifies this`dragItem
      ensures Valid() && dragItem.None?
      ensures ids == Ids(cards)
      ensures multiset(ids) == multiset(Ids(initial))
    {
      dragItem := None;
      ids := Ids(cards);
      IdsPermutation(cards, initial);
    }
  }
}
