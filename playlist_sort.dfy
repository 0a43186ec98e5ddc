// itemlist.PlaylistSort: items kept in playlist order through a map from
// item id to position and a running position counter.

module PlaylistSorting {
  import opened Base
  import UtilCache

  predicate Distinct(s: seq<int>)
  {
    forall i, j :: 0 <= i < j < |s| ==> s[i] != s[j]
  }

  function Elements(s: seq<int>): set<int>
  {
    UtilCache.Elements(s)
  }

  /** `positions` numbers the ids of `order` by their place in it. */
  predicate Represents(positions: map<int, nat>, order: seq<int>)
  {
    Distinct(order) &&
    (forall i :: 0 <= i < |order| ==> order[i] in positions && positions[order[i]] == i) &&
    (forall id :: id in positions ==> id in order)
  }

  /** The positions map is a bijection from its ids onto 0 .. n-1. */
  lemma RepresentsIsBijection(positions: map<int, nat>, order: seq<int>)
    requires Represents(positions, order)
    ensures |positions| == |order|
    ensures forall id :: id in positions ==> positions[id] < |positions| && order[positions[id]] == id
    ensures forall a, b :: a in positions && b in positions && positions[a] == positions[b] ==> a == b
    ensures forall p :: 0 <= p < |positions| ==> order[p] in positions && positions[order[p]] == p
  {
    DistinctCard(order);
    RepresentsKeys(positions, order);
    forall id | id in positions
      ensures positions[id] < |order| && order[positions[id]] == id
    {
      var i :| 0 <= i < |order| && order[i] == id;
    }
  }

  lemma RepresentsKeys(positions: map<int, nat>, order: seq<int>)
    requires Represents(positions, order)
    ensures positions.Keys == Elements(order)
  {
    forall x | x in Elements(order)
      ensures x in positions
    {
      var i :| 0 <= i < |order| && order[i] == x;
    }
    forall x | x in positions
      ensures x in Elements(order)
    {
      assert x in order;
    }
  }

  lemma {:induction false} DistinctCard(s: seq<int>)
    requires Distinct(s)
    ensures |Elements(s)| == |s|
    decreases |s|
  {
    if s != [] {
      var t := s[..|s| - 1];
      DistinctCard(t);
      assert Elements(s) == Elements(t) + {s[|s| - 1]};
      assert s[|s| - 1] !in Elements(t);
    }
  }

  /**
   * What numbering the ids of a list in turn builds (a dict that takes the
   * next counter value per id): each id gets its last index.
   */
  function PositionsOf(order: seq<int>): (m: map<int, nat>)
    ensures m.Keys == Elements(order)
    ensures forall id :: id in m ==> m[id] < |order| && order[m[id]] == id
    ensures forall i :: 0 <= i < |order| ==> order[i] in m && i <= m[order[i]]
  {
    if order == [] then map[]
    else PositionsOf(order[..|order| - 1])[order[|order| - 1] := |order| - 1]
  }

  /** Numbering a list without repeats gives exactly its positions. */
  lemma PositionsOfDistinct(order: seq<int>)
    requires Distinct(order)
    ensures Represents(PositionsOf(order), order)
  {
    var m := PositionsOf(order);
    forall i | 0 <= i < |order|
      ensures m[order[i]] == i
    {
      assert order[m[order[i]]] == order[i];
    }
  }

  /** The numbering loop of __init__ and set_new_order. */
  method Number(order: seq<int>) returns (m: map<int, nat>)
    ensures m == PositionsOf(order)
  {
    m := map[];
    var i := 0;
    while i < |order|
      invariant 0 <= i <= |order|
      invariant m == PositionsOf(order[..i])
    {
      assert order[..i + 1][..i] == order[..i];
      m := m[order[i] := i];
      i := i + 1;
    }
    assert order[..i] == order;
  }

  /** add_items_at_end: the ids not yet placed, appended in list order, each once. */
  function AppendNew(order: seq<int>, items: seq<int>): seq<int>
  {
    if items == [] then order
    else
      var o := AppendNew(order, items[..|items| - 1]);
      if items[|items| - 1] in o then o else o + [items[|items| - 1]]
  }

  lemma {:induction false} AppendNewFacts(order: seq<int>, items: seq<int>)
    requires Distinct(order)
    ensures Distinct(AppendNew(order, items))
    ensures |order| <= |AppendNew(order, items)| && AppendNew(order, items)[..|order|] == order
    ensures Elements(AppendNew(order, items)) == Elements(order) + Elements(items)
    decreases |items|
  {
    if items != [] {
      var t := items[..|items| - 1];
      AppendNewFacts(order, t);
      var o := AppendNew(order, t);
      var x := items[|items| - 1];
      assert items == t + [x];
      assert Elements(items) == Elements(t) + {x};
      if x !in o {
        assert Elements(o + [x]) == Elements(o) + {x};
        assert (o + [x])[..|order|] == o[..|order|];
      }
    }
  }

  /** Placing a new id at the end keeps the numbering exact. */
  lemma RepresentsSnoc(positions: map<int, nat>, order: seq<int>, id: int)
    requires Represents(positions, order) && id !in positions
    ensures Represents(positions[id := |order|], order + [id])
  {
    var o := order + [id];
    assert forall i :: 0 <= i < |order| ==> o[i] == order[i];
  }

  /** The ids of `items` that are not yet placed, in list order (repeats kept). */
  function Unseen(items: seq<int>, placed: set<int>): (r: seq<int>)
    ensures forall i :: 0 <= i < |r| ==> r[i] !in placed
    ensures Elements(r) == Elements(items) - placed
  {
    if items == [] then []
    else
      var rest := Unseen(items[1..], placed);
      assert items == [items[0]] + items[1..];
      assert Elements(items) == {items[0]} + Elements(items[1..]);
      if items[0] in placed then rest else
        assert Elements([items[0]] + rest) == {items[0]} + Elements(rest);
        [items[0]] + rest
  }

  /** Every position moved forward by k. */
  function Shift(positions: map<int, nat>, k: nat): map<int, nat>
  {
    map id | id in positions :: positions[id] + k
  }

  /** Putting k new ids first and shifting every old position by k keeps the numbering exact. */
  lemma RepresentsPrepend(positions: map<int, nat>, order: seq<int>, newIds: seq<int>)
    requires Represents(positions, order) && Distinct(newIds)
    requires forall i :: 0 <= i < |newIds| ==> newIds[i] !in positions
    ensures Represents(Shift(positions, |newIds|) + PositionsOf(newIds), newIds + order)
  {
    PositionsOfDistinct(newIds);
    var m := Shift(positions, |newIds|) + PositionsOf(newIds);
    var o := newIds + order;
    forall i | 0 <= i < |o|
      ensures o[i] in m && m[o[i]] == i
    {
      if i >= |newIds| {
        assert o[i] == order[i - |newIds|];
        assert o[i] !in Elements(newIds);
      }
    }
    forall i, j | 0 <= i < j < |o|
      ensures o[i] != o[j]
    {
      assert m[o[i]] == i && m[o[j]] == j;
    }
    forall id | id in m
      ensures id in o
    {
      if id in positions {
        var i :| 0 <= i < |order| && order[i] == id;
        assert o[|newIds| + i] == id;
      }
    }
  }

  /** The ids of `order` outside `gone`, in their order. */
  function FilterOut(order: seq<int>, gone: set<int>): (r: seq<int>)
    ensures Elements(r) == Elements(order) - gone
  {
    if order == [] then []
    else
      var o := FilterOut(order[..|order| - 1], gone);
      var x := order[|order| - 1];
      assert order == order[..|order| - 1] + [x];
      assert Elements(order) == Elements(order[..|order| - 1]) + {x};
      if x in gone then o else
        assert Elements(o + [x]) == Elements(o) + {x};
        o + [x]
  }

  /**
   * Dropping ids keeps the survivors strictly increasing in their old
   * positions, in any map that agrees with those positions on them.
   */
  lemma {:induction false} FilterOutSorted(order: seq<int>, gone: set<int>, q: map<int, nat>)
    requires forall i :: 0 <= i < |order| && order[i] !in gone ==> order[i] in q && q[order[i]] == i
    ensures UtilCache.Sorted(q, FilterOut(order, gone))
    ensures forall k :: k in FilterOut(order, gone) ==> k in q && q[k] < |order|
    decreases |order|
  {
    if order != [] {
      var t := order[..|order| - 1];
      var x := order[|order| - 1];
      assert forall i :: 0 <= i < |t| ==> t[i] == order[i];
      FilterOutSorted(t, gone, q);
      var o := FilterOut(t, gone);
      if x !in gone {
        var r := o + [x];
        assert forall i :: 0 <= i < |o| ==> r[i] == o[i];
        assert q[x] == |order| - 1;
      }
    }
  }

  lemma FilterOutDistinct(order: seq<int>, gone: set<int>)
    requires Distinct(order)
    ensures Distinct(FilterOut(order, gone))
  {
    var q := PositionsOf(order);
    PositionsOfDistinct(order);
    FilterOutSorted(order, gone, q);
  }

  /** In a sorted list every other id has a smaller key than the last one. */
  lemma SortedLast(q: map<int, nat>, a: seq<int>, y: int)
    requires UtilCache.Sorted(q, a) && a != [] && y in Elements(a) && y != a[|a| - 1]
    ensures y in q && q[y] < q[a[|a| - 1]]
  {
    var j :| 0 <= j < |a| && a[j] == y;
  }

  /** Two sorted lists with the same ids end in the same id. */
  lemma SortedSameLast(q: map<int, nat>, a: seq<int>, b: seq<int>)
    requires UtilCache.Sorted(q, a) && UtilCache.Sorted(q, b) && Elements(a) == Elements(b) && a != [] && b != []
    ensures a[|a| - 1] == b[|b| - 1]
  {
    var x := a[|a| - 1];
    var y := b[|b| - 1];
    assert x in Elements(b) && y in Elements(a);
    if x != y {
      SortedLast(q, a, y);
      SortedLast(q, b, x);
    }
  }

  /** Dropping the last id of a sorted list leaves a sorted list of the other ids. */
  lemma SortedInit(q: map<int, nat>, a: seq<int>)
    requires UtilCache.Sorted(q, a) && a != []
    ensures UtilCache.Sorted(q, a[..|a| - 1])
    ensures Elements(a[..|a| - 1]) == Elements(a) - {a[|a| - 1]}
  {
    var t := a[..|a| - 1];
    var x := a[|a| - 1];
    assert forall k :: 0 <= k < |t| ==> t[k] == a[k] && q[a[k]] < q[x];
    assert a == t + [x];
    UtilCache.ElementsSnoc(t, x);
  }

  /** Two lists sorted by the same strictly increasing key with the same ids are equal. */
  lemma {:induction false} SortedUnique(q: map<int, nat>, a: seq<int>, b: seq<int>)
    requires UtilCache.Sorted(q, a) && UtilCache.Sorted(q, b) && Elements(a) == Elements(b)
    ensures a == b
    decreases |a|
  {
    UtilCache.SortedCard(q, a);
    UtilCache.SortedCard(q, b);
    if a != [] {
      SortedSameLast(q, a, b);
      SortedInit(q, a);
      SortedInit(q, b);
      SortedUnique(q, a[..|a| - 1], b[..|b| - 1]);
      assert a == a[..|a| - 1] + [a[|a| - 1]];
      assert b == b[..|b| - 1] + [b[|b| - 1]];
    }
  }

  /** Sorting the ids left outside `gone` by position gives them in playlist order. */
  lemma SortRemaining(positions: map<int, nat>, order: seq<int>, gone: set<int>, sorted: seq<int>)
    requires Represents(positions, order)
    requires UtilCache.Sorted(Remaining(positions, gone), sorted)
    requires Elements(sorted) == Remaining(positions, gone).Keys
    ensures sorted == FilterOut(order, gone)
  {
    var q := Remaining(positions, gone);
    FilterOutSorted(order, gone, q);
    RepresentsKeys(positions, order);
    assert Elements(FilterOut(order, gone)) == q.Keys;
    SortedUnique(q, sorted, FilterOut(order, gone));
  }

  function Remaining(positions: map<int, nat>, gone: set<int>): map<int, nat>
  {
    map id | id in positions && id !in gone :: positions[id]
  }

  lemma RemainingDistinct(positions: map<int, nat>, order: seq<int>, gone: set<int>)
    requires Represents(positions, order)
    ensures UtilCache.DistinctTimes(Remaining(positions, gone))
  {
    RepresentsIsBijection(positions, order);
  }

  /** The list reversed. */
  function Reversed(s: seq<int>): (r: seq<int>)
    ensures |r| == |s| && forall i :: 0 <= i < |s| ==> r[i] == s[|s| - 1 - i]
  {
    seq(|s|, i requires 0 <= i < |s| => s[|s| - 1 - i])
  }

  /** reverse_order's new positions: p becomes n - 1 - p. */
  function ReversedPositions(positions: map<int, nat>): map<int, nat>
  {
    map id | id in positions :: if positions[id] < |positions| then |positions| - 1 - positions[id] else 0
  }

  lemma ReversedRepresents(positions: map<int, nat>, order: seq<int>)
    requires Represents(positions, order)
    ensures Represents(ReversedPositions(positions), Reversed(order))
  {
    RepresentsIsBijection(positions, order);
    var r := Reversed(order);
    var n := |order|;
    forall i | 0 <= i < n
      ensures r[i] in ReversedPositions(positions) && ReversedPositions(positions)[r[i]] == i
    {
      assert positions[order[n - 1 - i]] == n - 1 - i;
    }
    forall i, j | 0 <= i < j < n
      ensures r[i] != r[j]
    {
      assert order[n - 1 - i] != order[n - 1 - j];
    }
    forall id | id in positions
      ensures id in r
    {
      var p := positions[id];
      assert r[n - 1 - p] == id;
    }
  }

  /** Reversing twice restores both the order and the positions. */
  lemma ReverseTwice(positions: map<int, nat>, order: seq<int>)
    requires Represents(positions, order)
    ensures Reversed(Reversed(order)) == order
    ensures ReversedPositions(ReversedPositions(positions)) == positions
  {
    RepresentsIsBijection(positions, order);
    var r := ReversedPositions(positions);
    assert r.Keys == positions.Keys;
    assert |r| == |positions|;
    forall id | id in positions
      ensures ReversedPositions(r)[id] == positions[id]
    {
      assert r[id] == |positions| - 1 - positions[id];
    }
    assert ReversedPositions(r) == positions;
    assert Reversed(Reversed(order)) == order;
  }

  /**
   * move_ids_before's new order: the ids not moving, in their order, with
   * `ids` inserted before `before` (or at the end); None is the ValueError
   * of list.index when `before` is not among the ids that stay.
   */
  function MoveBefore(order: seq<int>, before: Option<int>, ids: seq<int>): Option<seq<int>>
  {
    var rest := FilterOut(order, Elements(ids));
    if before.None? then Some(rest + ids)
    else if before.value !in rest then None
    else
      var k := InsertIndex(order, before.value, ids);
      Some(rest[..k] + ids + rest[k..])
  }

  /** Where the moved ids go: the place of `before` among the ids that stay. */
  function InsertIndex(order: seq<int>, before: int, ids: seq<int>): nat
  {
    FirstIndex(FilterOut(order, Elements(ids)), before)
  }

  /** The first position of `v` in `s`, |s| when it is absent (list.index). */
  function FirstIndex(s: seq<int>, v: int): (k: nat)
    ensures k <= |s| && (k < |s| ==> s[k] == v) && (k == |s| <==> v !in s)
    ensures forall j :: 0 <= j < k ==> s[j] != v
  {
    if s == [] then 0 else if s[0] == v then 0 else 1 + FirstIndex(s[1..], v)
  }

  /** The move fails exactly when `before` is given and is not an id that stays. */
  lemma MoveBeforeFails(order: seq<int>, before: Option<int>, ids: seq<int>)
    ensures MoveBefore(order, before, ids).None? <==>
      before.Some? && (before.value !in order || before.value in ids)
  {
    if before.Some? {
      var v := before.value;
      assert v in FilterOut(order, Elements(ids)) <==> v in Elements(FilterOut(order, Elements(ids)));
      assert v in order <==> v in Elements(order);
      assert v in ids <==> v in Elements(ids);
    }
  }

  /** The move's result, as the ids that stay cut at `k` around the moved ones. */
  lemma MoveBeforeShape(order: seq<int>, before: Option<int>, ids: seq<int>)
    requires MoveBefore(order, before, ids).Some?
    ensures var rest := FilterOut(order, Elements(ids));
      var k := if before.None? then |rest| else InsertIndex(order, before.value, ids);
      k <= |rest| && MoveBefore(order, before, ids).value == rest[..k] + ids + rest[k..]
  {
    var rest := FilterOut(order, Elements(ids));
    if before.None? {
      assert rest[..|rest|] == rest && rest[|rest|..] == [];
    }
  }

  /** A move keeps every id and adds the moved ones. */
  lemma MoveBeforeContents(order: seq<int>, before: Option<int>, ids: seq<int>)
    requires MoveBefore(order, before, ids).Some?
    ensures Elements(MoveBefore(order, before, ids).value) == Elements(order) + Elements(ids)
  {
    MoveBeforeShape(order, before, ids);
    var rest := FilterOut(order, Elements(ids));
    var k := if before.None? then |rest| else InsertIndex(order, before.value, ids);
    var r := MoveBefore(order, before, ids).value;
    assert rest == rest[..k] + rest[k..];
    forall x
      ensures x in Elements(r) <==> x in Elements(order) || x in Elements(ids)
    {
      assert x in r <==> x in rest[..k] || x in ids || x in rest[k..];
      assert x in rest <==> x in rest[..k] || x in rest[k..];
      assert x in rest <==> x in Elements(rest);
    }
  }

  /** The ids that do not move keep their relative order. */
  lemma MoveBeforeKeepsOthers(order: seq<int>, before: Option<int>, ids: seq<int>)
    requires MoveBefore(order, before, ids).Some?
    ensures FilterOut(MoveBefore(order, before, ids).value, Elements(ids)) == FilterOut(order, Elements(ids))
  {
    MoveBeforeShape(order, before, ids);
    var g := Elements(ids);
    var rest := FilterOut(order, g);
    var k := if before.None? then |rest| else InsertIndex(order, before.value, ids);
    FilterOutConcat(rest[..k], ids, g);
    FilterOutConcat(rest[..k] + ids, rest[k..], g);
    FilterOutAll(ids, g);
    assert Elements(rest[..k]) <= Elements(rest) && Elements(rest[k..]) <= Elements(rest) by {
      assert rest == rest[..k] + rest[k..];
    }
    FilterOutNone(rest[..k], g);
    FilterOutNone(rest[k..], g);
    assert rest[..k] + rest[k..] == rest;
  }

  /** Three lists without repeats and with no id in common make one. */
  lemma DistinctConcat3(a: seq<int>, b: seq<int>, c: seq<int>)
    requires Distinct(a) && Distinct(b) && Distinct(c)
    requires Elements(a) !! Elements(b) && Elements(a) !! Elements(c) && Elements(b) !! Elements(c)
    ensures Distinct(a + b + c)
  {
    var r := a + b + c;
    forall i, j | 0 <= i < j < |r|
      ensures r[i] != r[j]
    {
      assert r[i] in Elements(if i < |a| then a else if i < |a| + |b| then b else c);
      assert r[j] in Elements(if j < |a| then a else if j < |a| + |b| then b else c);
    }
  }

  /** With no repeats in the playlist or in the moved ids, the new order has none either. */
  lemma MoveBeforeDistinct(order: seq<int>, before: Option<int>, ids: seq<int>)
    requires MoveBefore(order, before, ids).Some? && Distinct(order) && Distinct(ids)
    ensures Distinct(MoveBefore(order, before, ids).value)
  {
    MoveBeforeShape(order, before, ids);
    var g := Elements(ids);
    var rest := FilterOut(order, g);
    var k := if before.None? then |rest| else InsertIndex(order, before.value, ids);
    FilterOutDistinct(order, g);
    assert rest == rest[..k] + rest[k..];
    assert Elements(rest[..k]) <= Elements(rest) && Elements(rest[k..]) <= Elements(rest);
    assert Distinct(rest[..k]) && Distinct(rest[k..]);
    DisjointHalves(rest, k);
    DistinctConcat3(rest[..k], ids, rest[k..]);
  }

  lemma DisjointHalves(s: seq<int>, k: nat)
    requires Distinct(s) && k <= |s|
    ensures Elements(s[..k]) !! Elements(s[k..])
  {
    forall x | x in Elements(s[..k])
      ensures x !in Elements(s[k..])
    {
      var i :| 0 <= i < k && s[..k][i] == x;
      assert s[i] == x;
      assert forall j :: 0 <= j < |s| - k ==> s[k..][j] == s[k + j] && s[k + j] != x;
    }
  }

  /** With a `before` id, the moved ids sit together, in their order, right before it. */
  lemma MoveBeforePlacement(order: seq<int>, before: int, ids: seq<int>)
    requires MoveBefore(order, Some(before), ids).Some?
    ensures InsertIndex(order, before, ids) + |ids| < |MoveBefore(order, Some(before), ids).value|
    ensures MoveBefore(order, Some(before), ids).value[InsertIndex(order, before, ids)..][..|ids|] == ids
    ensures MoveBefore(order, Some(before), ids).value[InsertIndex(order, before, ids) + |ids|] == before
  {
    var rest := FilterOut(order, Elements(ids));
    var k := InsertIndex(order, before, ids);
    var r := MoveBefore(order, Some(before), ids).value;
    assert r[k..][..|ids|] == ids;
    assert r[k + |ids|] == rest[k];
  }

  /** Without a `before` id, the moved ids go last. */
  lemma MoveToEnd(order: seq<int>, ids: seq<int>)
    ensures MoveBefore(order, None, ids) == Some(FilterOut(order, Elements(ids)) + ids)
  {
  }

  lemma FilterOutConcat(a: seq<int>, b: seq<int>, gone: set<int>)
    ensures FilterOut(a + b, gone) == FilterOut(a, gone) + FilterOut(b, gone)
    decreases |b|
  {
    if b == [] {
      assert a + b == a;
    } else {
      var b' := b[..|b| - 1];
      assert (a + b)[..|a + b| - 1] == a + b';
      FilterOutConcat(a, b', gone);
    }
  }

  lemma FilterOutAll(s: seq<int>, gone: set<int>)
    requires Elements(s) <= gone
    ensures FilterOut(s, gone) == []
  {
  }

  lemma FilterOutNone(s: seq<int>, gone: set<int>)
    requires Elements(s) !! gone
    ensures FilterOut(s, gone) == s
    decreases |s|
  {
    if s != [] {
      assert Elements(s[..|s| - 1]) <= Elements(s);
      FilterOutNone(s[..|s| - 1], gone);
    }
  }

  /** The loop of add_items_at_start that moves every position up by k. */
  method ShiftAll(positions: map<int, nat>, k: nat) returns (m: map<int, nat>)
    ensures m == Shift(positions, k)
  {
    m := positions;
    var todo := positions.Keys;
    while todo != {}
      invariant todo <= positions.Keys && m.Keys == positions.Keys
      invariant forall id :: id in m ==> m[id] == positions[id] + (if id in todo then 0 else k)
      decreases |todo|
    {
      var id := Pick(todo);
      m := m[id := m[id] + k];
      todo := todo - {id};
    }
    assert todo == {};
    assert m.Keys == Shift(positions, k).Keys;
    assert forall id :: id in m ==> m[id] == Shift(positions, k)[id];
  }

  /** The enumerate loop of add_items_at_start: the new ids numbered 0, 1, ... over `base`. */
  method NumberFrom(base: map<int, nat>, newIds: seq<int>) returns (m: map<int, nat>)
    ensures m == base + PositionsOf(newIds)
  {
    m := base;
    var j := 0;
    while j < |newIds|
      invariant 0 <= j <= |newIds|
      invariant m == base + PositionsOf(newIds[..j])
    {
      MergeSnoc(base, newIds, j);
      m := m[newIds[j] := j];
      j := j + 1;
    }
    assert newIds[..j] == newIds;
  }

  lemma MergeSnoc(base: map<int, nat>, s: seq<int>, j: nat)
    requires j < |s|
    ensures base + PositionsOf(s[..j + 1]) == (base + PositionsOf(s[..j]))[s[j] := j]
  {
    assert s[..j + 1][..j] == s[..j];
    assert PositionsOf(s[..j + 1]) == PositionsOf(s[..j])[s[j] := j];
    MergeUpdate(base, PositionsOf(s[..j]), s[j], j);
  }

  lemma MergeUpdate(base: map<int, nat>, p: map<int, nat>, x: int, v: nat)
    ensures base + p[x := v] == (base + p)[x := v]
  {
    var l := base + p[x := v];
    var r := (base + p)[x := v];
    assert l.Keys == r.Keys;
    assert forall id :: id in l ==> l[id] == r[id];
  }

  /**
   * The deletion loop of forget_items: false at the first id no longer
   * present (the KeyError), with the ids before it deleted.
   */
  method DeleteAll(positions: map<int, nat>, ids: seq<int>) returns (ok: bool, m: map<int, nat>)
    ensures ok <==> Distinct(ids) && Elements(ids) <= positions.Keys
    ensures ok ==> m == Remaining(positions, Elements(ids))
    ensures !ok ==> exists f :: 0 <= f < |ids| && m == Remaining(positions, Elements(ids[..f]))
  {
    m := positions;
    var i := 0;
    while i < |ids|
      invariant 0 <= i <= |ids|
      invariant Distinct(ids[..i]) && Elements(ids[..i]) <= positions.Keys
      invariant m == Remaining(positions, Elements(ids[..i]))
    {
      var id := ids[i];
      assert id in Elements(ids);
      if id !in m {
        if id in positions {
          var j :| 0 <= j < i && ids[..i][j] == id;
          assert ids[j] == id;
        }
        return false, m;
      }
      UtilCache.ElementsSnoc(ids[..i], id);
      assert ids[..i + 1] == ids[..i] + [id];
      assert Remaining(positions, Elements(ids[..i + 1])) == m - {id};
      m := m - {id};
      i := i + 1;
    }
    assert ids[..i] == ids;
    ok := true;
  }

  /** The loop of reverse_order: new positions, and the ids listed by them. */
  method ReverseLoop(positions: map<int, nat>, ghost order: seq<int>)
    returns (m: map<int, nat>, newOrder: seq<int>)
    requires Represents(positions, order)
    ensures m == ReversedPositions(positions) && newOrder == Reversed(order)
  {
    RepresentsIsBijection(positions, order);
    var n := |positions|;
    var last := n - 1;
    newOrder := seq(n, _ => 0);
    m := positions;
    var todo := positions.Keys;
    while todo != {}
      invariant todo <= positions.Keys && m.Keys == positions.Keys && |newOrder| == n
      invariant forall id :: id in m ==> m[id] == if id in todo then positions[id] else last - positions[id]
      invariant forall i :: 0 <= i < n && order[i] !in todo ==> newOrder[last - i] == order[i]
      decreases |todo|
    {
      var id := Pick(todo);
      var index := last - m[id];
      m := m[id := index];
      newOrder := newOrder[index := id];
      todo := todo - {id};
    }
    assert todo == {};
    assert newOrder == Reversed(order) by {
      forall j | 0 <= j < n
        ensures newOrder[j] == order[n - 1 - j]
      {
        assert order[last - j] !in todo;
      }
    }
    assert m.Keys == ReversedPositions(positions).Keys;
    assert forall id :: id in m ==> m[id] == ReversedPositions(positions)[id];
  }

  /** add_items_at_start's new positions: the unplaced ids first, every old position moved up. */
  function PrependNew(positions: map<int, nat>, items: seq<int>): map<int, nat>
  {
    var newIds := Unseen(items, positions.Keys);
    Shift(positions, |newIds|) + PositionsOf(newIds)
  }

  /** Every placed and every listed id gets a position; the new ids take those below the shift. */
  lemma PrependNewFacts(positions: map<int, nat>, items: seq<int>)
    ensures PrependNew(positions, items).Keys == positions.Keys + Elements(items)
    ensures forall id :: id in positions ==>
      PrependNew(positions, items)[id] == positions[id] + |Unseen(items, positions.Keys)|
    ensures forall id :: id in PrependNew(positions, items) && id !in positions ==>
      PrependNew(positions, items)[id] < |Unseen(items, positions.Keys)|
  {
  }

  /** A positions map and counter that number the playlist order 0, 1, ... with the counter next. */
  predicate Numbered(positions: map<int, nat>, order: seq<int>, next: nat)
  {
    Represents(positions, order) && next == |order|
  }

  /** add_items_at_start's work, with the playlist order it leads to when the new ids do not repeat. */
  method StartInsert(positions: map<int, nat>, ghost order: seq<int>, items: seq<int>)
    returns (m: map<int, nat>, n: nat, ghost newOrder: seq<int>)
    requires Represents(positions, order)
    ensures m == PrependNew(positions, items) && n == |m|
    ensures Distinct(Unseen(items, positions.Keys)) ==>
      Numbered(m, newOrder, n) && newOrder == Unseen(items, positions.Keys) + order
  {
    var newIds := Unseen(items, positions.Keys);
    var shifted := ShiftAll(positions, |newIds|);
    m := NumberFrom(shifted, newIds);
    n := |m|;
    newOrder := newIds + order;
    if Distinct(newIds) {
      RepresentsPrepend(positions, order, newIds);
      RepresentsIsBijection(m, newOrder);
    }
  }

  class PlaylistSort {
    var positions: map<int, nat>
    /** current_postion: the next value the position counter hands out. */
    var next: nat
    var orderIsReversed: bool
    var reverse: bool
    /** The ids in playlist order, which `positions` numbers. */
    ghost var order: seq<int>

    ghost predicate Valid()
      reads this
    {
      Numbered(positions, order, next)
    }

    /** PlaylistSort(initial_items): the initial ids numbered in turn. */
    constructor(initial: seq<int>)
      ensures positions == PositionsOf(initial) && next == |initial|
      ensures !orderIsReversed && !reverse
      ensures Distinct(initial) ==> Valid() && order == initial
    {
      var numbered := Number(initial);
      positions := numbered;
      next := |initial|;
      orderIsReversed := false;
      reverse := false;
      order := initial;
      if Distinct(initial) {
        PositionsOfDistinct(initial);
      }
    }

    method SetAscending(ascending: bool)
      modifies this
      ensures reverse == !ascending
      ensures positions == old(positions) && next == old(next) && order == old(order)
      ensures orderIsReversed == old(orderIsReversed)
    {
      reverse := !ascending;
    }

    /** add_items: at the end in playlist order, at the start once the order is reversed. */
    method AddItems(items: seq<int>)
      requires Valid()
      modifies this`positions, this`next, this`order
      ensures !old(orderIsReversed) ==> Valid() && order == AppendNew(old(order), items)
      ensures old(orderIsReversed) ==>
        positions == PrependNew(old(positions), items) && next == |positions|
      ensures old(orderIsReversed) && Distinct(Unseen(items, old(positions).Keys)) ==>
        Valid() && order == Unseen(items, old(positions).Keys) + old(order)
    {
      if !orderIsReversed {
        AddItemsAtEnd(items);
      } else {
        AddItemsAtStart(items);
      }
    }

    /** add_items_at_end: each id not yet placed takes the next position. */
    method AddItemsAtEnd(items: seq<int>)
      requires Valid()
      modifies this`positions, this`next, this`order
      ensures Valid() && order == AppendNew(old(order), items)
      ensures forall id :: id in old(positions) ==> id in positions && positions[id] == old(positions)[id]
    {
      var i := 0;
      while i < |items|
        invariant 0 <= i <= |items|
        invariant Valid() && order == AppendNew(old(order), items[..i])
        invariant forall id :: id in old(positions) ==> id in positions && positions[id] == old(positions)[id]
      {
        var id := items[i];
        assert items[..i + 1][..i] == items[..i];
        RepresentsKeys(positions, order);
        if id !in positions {
          RepresentsSnoc(positions, order, id);
          positions := positions[id := next];
          next := next + 1;
          order := order + [id];
        }
        i := i + 1;
      }
      assert items[..i] == items;
    }

    /**
     * add_items_at_start: every old position moves up by the number of
     * unplaced ids, which take positions 0, 1, ... in list order.
     */
    method AddItemsAtStart(items: seq<int>)
      requires Valid()
      modifies this`positions, this`next, this`order
      ensures positions == PrependNew(old(positions), items)
      ensures next == |positions|
      ensures Distinct(Unseen(items, old(positions).Keys)) ==>
        Valid() && order == Unseen(items, old(positions).Keys) + old(order)
    {
      var m, n;
      ghost var o;
      m, n, o := StartInsert(positions, order, items);
      if Distinct(Unseen(items, positions.Keys)) {
        order := o;
      }
      positions, next := m, n;
    }

    /**
     * forget_items: deletes the ids (KeyError, reported as false, at the
     * first one no longer present) and numbers the rest 0, 1, ... in order.
     */
    method ForgetItems(ids: seq<int>) returns (ok: bool)
      requires Valid()
      modifies this
      ensures ok <==> Distinct(ids) && Elements(ids) <= old(positions).Keys
      ensures ok ==> Valid() && order == FilterOut(old(order), Elements(ids))
      ensures !ok ==> exists f :: (0 <= f < |ids| &&
        positions == Remaining(old(positions), Elements(ids[..f])) && next == old(next))
      ensures orderIsReversed == old(orderIsReversed) && reverse == old(reverse)
    {
      var remaining;
      ok, remaining := DeleteAll(positions, ids);
      if !ok {
        positions := remaining;
        return;
      }
      RemainingDistinct(positions, order, Elements(ids));
      var sorted := UtilCache.SortByTime(remaining);
      SortRemaining(positions, order, Elements(ids), sorted);
      FilterOutDistinct(order, Elements(ids));
      PositionsOfDistinct(sorted);
      positions := Number(sorted);
      next := |sorted|;
      order := sorted;
    }

    /**
     * should_reverse_order: the header's direction differs from the current
     * one, which is ascending exactly when the order is not reversed.
     */
    function ShouldReverseOrder(ascending: bool): (r: bool)
      reads this
      ensures r <==> ascending != !orderIsReversed
    {
      ascending == orderIsReversed
    }

    /** reverse_order: position p becomes n - 1 - p; returns the ids by their new position. */
    method ReverseOrder() returns (newOrder: seq<int>)
      requires Valid()
      modifies this
      ensures Valid() && order == Reversed(old(order)) && newOrder == order
      ensures positions == ReversedPositions(old(positions))
      ensures orderIsReversed == !old(orderIsReversed) && reverse == old(reverse)
      ensures forall ascending: bool :: ShouldReverseOrder(ascending) == !old(ShouldReverseOrder(ascending))
    {
      ghost var start := positions;
      positions, newOrder := ReverseLoop(positions, order);
      ReversedRepresents(start, order);
      order := Reversed(order);
      orderIsReversed := !orderIsReversed;
    }

    /** set_new_order: the ids numbered in turn. */
    method SetNewOrder(idOrder: seq<int>)
      modifies this
      ensures positions == PositionsOf(idOrder) && next == |idOrder|
      ensures Distinct(idOrder) ==> Valid() && order == idOrder
      ensures orderIsReversed == old(orderIsReversed) && reverse == old(reverse)
    {
      positions := Number(idOrder);
      next := |idOrder|;
      if Distinct(idOrder) {
        PositionsOfDistinct(idOrder);
        order := idOrder;
      }
    }

    /**
     * move_ids_before: the staying ids in position order, with `ids`
     * spliced in before `before` (or at the end); None where list.index
     * raises ValueError, with nothing changed.
     */
    method MoveIdsBefore(before: Option<int>, ids: seq<int>) returns (r: Option<seq<int>>)
      requires Valid()
      modifies this
      ensures r == MoveBefore(old(order), before, ids)
      ensures r.Some? ==> positions == PositionsOf(r.value) && next == |r.value|
      ensures r.Some? && Distinct(ids) ==> Valid() && order == r.value
      ensures r.None? ==> positions == old(positions) && next == old(next) && order == old(order)
      ensures orderIsReversed == old(orderIsReversed) && reverse == old(reverse)
    {
      var moving := Elements(ids);
      var staying := Remaining(positions, moving);
      RemainingDistinct(positions, order, moving);
      var rest := UtilCache.SortByTime(staying);
      SortRemaining(positions, order, moving, rest);
      var newOrder;
      if before.Some? {
        var k := FirstIndex(rest, before.value);
        if k == |rest| {
          return None;
        }
        newOrder := rest[..k] + ids + rest[k..];
      } else {
        newOrder := rest + ids;
      }
      assert Some(newOrder) == MoveBefore(order, before, ids);
      if Distinct(ids) {
        MoveBeforeDistinct(order, before, ids);
      }
      SetNewOrder(newOrder);
      r := Some(newOrder);
    }

    /** sort_key: the item's position; an unknown item is first added (soft failure). */
    method SortKey(id: int) returns (key: nat)
      requires Valid()
      modifies this`positions, this`next, this`order
      ensures Valid() && id in positions && key == positions[id]
      ensures id in old(positions) ==>
        positions == old(positions) && next == old(next) && order == old(order) && key == old(positions)[id]
      ensures id !in old(positions) && !old(orderIsReversed) ==>
        Valid() && order == old(order) + [id] && key == |old(order)|
      ensures id !in old(positions) && old(orderIsReversed) ==>
        Valid() && order == [id] + old(order) && key == 0
    {
      if id in positions {
        return positions[id];
      }
      RepresentsKeys(positions, order);
      assert [id][..0] == [];
      assert Unseen([id], positions.Keys) == [id];
      assert PositionsOf([id]) == map[id := 0];
      AddItems([id]);
      RepresentsKeys(positions, order);
      key := positions[id];
    }

    /** items_will_change: the added items are placed as add_items does. */
    method ItemsWillChange(added: seq<int>)
      requires Valid()
      modifies this`positions, this`next, this`order
      ensures !old(orderIsReversed) ==> Valid() && order == AppendNew(old(order), added)
      ensures old(orderIsReversed) ==>
        positions == PrependNew(old(positions), added) && next == |positions|
      ensures old(orderIsReversed) && Distinct(Unseen(added, old(positions).Keys)) ==>
        Valid() && order == Unseen(added, old(positions).Keys) + old(order)
    {
      AddItems(added);
    }

    /** items_removed_from_source: the removed items are forgotten. */
    method ItemsRemovedFromSource(removed: seq<int>) returns (ok: bool)
      requires Valid()
      modifies this
      ensures ok <==> Distinct(removed) && Elements(removed) <= old(positions).Keys
      ensures ok ==> Valid() && order == FilterOut(old(order), Elements(removed))
      ensures !ok ==> exists f :: (0 <= f < |removed| &&
        positions == Remaining(old(positions), Elements(removed[..f])) && next == old(next))
      ensures orderIsReversed == old(orderIsReversed) && reverse == old(reverse)
    {
      ok := ForgetItems(removed);
    }
  }
}
