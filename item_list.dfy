// ItemList (itemlist.py): the items of one list, split between the
// displayed table model and the `_hidden_items` that the filter rejects.
// The table model is a map from id to info, its per-row attributes are
// maps too, and the filter set is an arbitrary predicate on infos.

module ItemLists {
  import opened Base
  import opened ItemSorts
  import UtilCache

  // ------------------------------------------------------------ vocabulary

  function Elements(s: seq<int>): set<int>
  {
    UtilCache.Elements(s)
  }

  /** The ids of a batch of infos. */
  function Ids(infos: seq<Info>): set<int>
  {
    set i | 0 <= i < |infos| :: infos[i].id
  }

  lemma IdsSnoc(s: seq<Info>, x: Info)
    ensures Ids(s + [x]) == Ids(s) + {x.id}
  {
    assert forall i :: 0 <= i < |s| ==> (s + [x])[i] == s[i];
    assert (s + [x])[|s|] == x;
  }

  lemma IdsOfPrefix(infos: seq<Info>, k: nat)
    requires k <= |infos|
    ensures Ids(infos[..k]) <= Ids(infos)
  {
    assert forall i :: 0 <= i < k ==> infos[..k][i] == infos[i];
  }

  /** Every info is filed under its own id. */
  predicate Keyed(m: map<int, Info>)
  {
    forall id :: id in m ==> m[id].id == id
  }

  /** A batch of infos as the table model files it: by id, a later info replacing an earlier one. */
  function InfoMap(infos: seq<Info>): (m: map<int, Info>)
    ensures m.Keys == Ids(infos)
    ensures Keyed(m)
  {
    if infos == [] then map[]
    else
      var init := infos[..|infos| - 1];
      var last := infos[|infos| - 1];
      assert forall i :: 0 <= i < |init| ==> init[i] == infos[i];
      assert Ids(infos) == Ids(init) + {last.id} by {
        assert forall i :: 0 <= i < |init| ==> infos[i].id in Ids(init);
      }
      InfoMap(init)[last.id := last]
  }

  /** Every info the table model files comes from the batch. */
  lemma {:induction false} InfoMapValues(infos: seq<Info>)
    ensures forall id :: id in InfoMap(infos) ==> exists i :: 0 <= i < |infos| && infos[i] == InfoMap(infos)[id]
    decreases |infos|
  {
    if infos != [] {
      var init := infos[..|infos| - 1];
      InfoMapValues(init);
      forall id | id in InfoMap(infos)
        ensures exists i :: 0 <= i < |infos| && infos[i] == InfoMap(infos)[id]
      {
        if id != infos[|infos| - 1].id {
          var i :| 0 <= i < |init| && init[i] == InfoMap(init)[id];
          assert infos[i] == InfoMap(infos)[id];
        }
      }
    }
  }

  /** The infos of a batch on which the filter says `verdict`, in order. */
  function Select(infos: seq<Info>, filter: Info -> bool, verdict: bool): (r: seq<Info>)
    ensures forall i :: 0 <= i < |r| ==> filter(r[i]) == verdict
    ensures Ids(r) <= Ids(infos)
  {
    if infos == [] then []
    else
      var init := infos[..|infos| - 1];
      var last := infos[|infos| - 1];
      var rest := Select(init, filter, verdict);
      IdsOfPrefix(infos, |infos| - 1);
      IdsSnoc(rest, last);
      IdsSnoc(init, last);
      assert init + [last] == infos;
      if filter(last) == verdict then rest + [last] else rest
  }

  /** Selecting from a batch one info longer. */
  lemma SelectSnoc(infos: seq<Info>, x: Info, filter: Info -> bool, verdict: bool)
    ensures Select(infos + [x], filter, verdict) ==
      if filter(x) == verdict then Select(infos, filter, verdict) + [x] else Select(infos, filter, verdict)
  {
    assert (infos + [x])[..|infos|] == infos;
  }

  /** Filing one more info: a map update. */
  lemma InfoMapSnoc(infos: seq<Info>, x: Info)
    ensures InfoMap(infos + [x]) == InfoMap(infos)[x.id := x]
  {
    assert (infos + [x])[..|infos|] == infos;
  }

  /** The entries of a map that the filter accepts. */
  function Matching(m: map<int, Info>, filter: Info -> bool): map<int, Info>
  {
    map id | id in m && filter(m[id]) :: m[id]
  }

  /** The entries of a map that the filter rejects. */
  function Failing(m: map<int, Info>, filter: Info -> bool): map<int, Info>
  {
    map id | id in m && !filter(m[id]) :: m[id]
  }

  /** Displayed and hidden ids never overlap. */
  predicate Partitioned(displayed: map<int, Info>, hidden: map<int, Info>)
  {
    displayed.Keys !! hidden.Keys
  }

  /** Every displayed info passes the filter and every hidden one fails it. */
  predicate Agrees(displayed: map<int, Info>, hidden: map<int, Info>, filter: Info -> bool)
  {
    (forall id :: id in displayed ==> filter(displayed[id])) &&
    (forall id :: id in hidden ==> !filter(hidden[id]))
  }

  /** The state every ItemList operation keeps: keyed, partitioned, row attributes only on displayed rows. */
  predicate ListInv(displayed: map<int, Info>, hidden: map<int, Info>,
                    details: map<int, bool>, throbber: map<int, int>)
  {
    Keyed(displayed) && Keyed(hidden) && Partitioned(displayed, hidden) &&
    details.Keys <= displayed.Keys && throbber.Keys <= displayed.Keys
  }

  /** A batch whose ids are distinct and not yet in the list. */
  predicate FreshBatch(infos: seq<Info>, displayed: map<int, Info>, hidden: map<int, Info>)
  {
    (forall i, j :: 0 <= i < j < |infos| ==> infos[i].id != infos[j].id) &&
    Ids(infos) !! displayed.Keys && Ids(infos) !! hidden.Keys
  }

  // ------------------------------------------------------------ add_items

  /** Filing an info after a merge is merging the updated map. */
  lemma MergeThenFile(base: map<int, Info>, m: map<int, Info>, x: Info)
    ensures base + m[x.id := x] == (base + m)[x.id := x]
  {
    var l, r := base + m[x.id := x], (base + m)[x.id := x];
    assert l.Keys == r.Keys;
    assert forall id :: id in l ==> l[id] == r[id];
  }

  /** add_items' loop: the accepted infos are collected, the rejected ones filed as hidden. */
  method SortBatch(hidden: map<int, Info>, items: seq<Info>, filter: Info -> bool)
    returns (toAdd: seq<Info>, h: map<int, Info>)
    ensures toAdd == Select(items, filter, true)
    ensures h == hidden + InfoMap(Select(items, filter, false))
  {
    toAdd := [];
    h := hidden;
    var i := 0;
    while i < |items|
      invariant 0 <= i <= |items|
      invariant toAdd == Select(items[..i], filter, true)
      invariant h == hidden + InfoMap(Select(items[..i], filter, false))
    {
      var item := items[i];
      assert items[..i + 1] == items[..i] + [item];
      SelectSnoc(items[..i], item, filter, true);
      SelectSnoc(items[..i], item, filter, false);
      InfoMapSnoc(Select(items[..i], filter, false), item);
      MergeThenFile(hidden, InfoMap(Select(items[..i], filter, false)), item);
      if filter(item) {
        toAdd := toAdd + [item];
      } else {
        h := h[item.id := item];
      }
      i := i + 1;
    }
    assert items[..i] == items;
  }

  /**
   * A fresh batch leaves the list partitioned and each of its infos on the
   * side the filter decides.
   */
  lemma {:induction false} FreshBatchSplits(displayed: map<int, Info>, hidden: map<int, Info>,
                                            items: seq<Info>, filter: Info -> bool)
    requires Partitioned(displayed, hidden) && FreshBatch(items, displayed, hidden)
    ensures Partitioned(displayed + InfoMap(Select(items, filter, true)),
                        hidden + InfoMap(Select(items, filter, false)))
    decreases |items|
  {
    if items != [] {
      var init := items[..|items| - 1];
      var last := items[|items| - 1];
      IdsOfPrefix(items, |items| - 1);
      assert FreshBatch(init, displayed, hidden);
      FreshBatchSplits(displayed, hidden, init, filter);
      assert last.id !in Ids(init);
      assert last.id !in Ids(Select(init, filter, true)) && last.id !in Ids(Select(init, filter, false));
      assert Select(items, filter, true) == if filter(last) then Select(init, filter, true) + [last] else Select(init, filter, true);
      assert Select(items, filter, false) == if !filter(last) then Select(init, filter, false) + [last] else Select(init, filter, false);
    }
  }

  // ------------------------------------------------------------ update_items

  /** The work lists update_items builds, and `_hidden_items` as it leaves it. */
  datatype Routing = Routing(hidden: map<int, Info>, toAdd: seq<Info>, toRemove: seq<int>, toUpdate: seq<Info>)

  /** One changed info: shown or still hidden if it was hidden, hidden or updated if it was displayed. */
  function RouteOne(r: Routing, info: Info, show: bool): Routing
  {
    if info.id in r.hidden then
      if show then r.(toAdd := r.toAdd + [info], hidden := r.hidden - {info.id})
      else r.(hidden := r.hidden[info.id := info])
    else
      if !show then r.(toRemove := r.toRemove + [info.id], hidden := r.hidden[info.id := info])
      else r.(toUpdate := r.toUpdate + [info])
  }

  /** The changed infos routed one after the other, from a given start. */
  function RouteFrom(r: Routing, changed: seq<Info>, filter: Info -> bool): Routing
  {
    if changed == [] then r
    else
      var last := changed[|changed| - 1];
      RouteOne(RouteFrom(r, changed[..|changed| - 1], filter), last, filter(last))
  }

  function Route(hidden: map<int, Info>, changed: seq<Info>, filter: Info -> bool): Routing
  {
    RouteFrom(Routing(hidden, [], [], []), changed, filter)
  }

  /** The table model after update_items: additions, then updates, then removals. */
  function Apply(displayed: map<int, Info>, r: Routing): map<int, Info>
  {
    displayed + InfoMap(r.toAdd) + InfoMap(r.toUpdate) - Elements(r.toRemove)
  }

  /** What update_items must keep: hidden ids meet additions, updates or displayed rows only where a removal follows. */
  predicate RouteSafe(displayed: map<int, Info>, r: Routing)
  {
    forall id :: id in r.hidden && (id in displayed || id in Ids(r.toAdd) || id in Ids(r.toUpdate)) ==>
      id in Elements(r.toRemove)
  }

  /** What the routing lists hold about the filter. */
  predicate RouteAgrees(r: Routing, filter: Info -> bool)
  {
    (forall id :: id in r.hidden ==> !filter(r.hidden[id])) &&
    (forall i :: 0 <= i < |r.toAdd| ==> filter(r.toAdd[i])) &&
    (forall i :: 0 <= i < |r.toUpdate| ==> filter(r.toUpdate[i]))
  }

  lemma RouteOneSafe(displayed: map<int, Info>, r: Routing, info: Info, show: bool)
    requires RouteSafe(displayed, r) && Keyed(r.hidden)
    ensures RouteSafe(displayed, RouteOne(r, info, show))
    ensures Keyed(RouteOne(r, info, show).hidden)
  {
    IdsSnoc(r.toAdd, info);
    IdsSnoc(r.toUpdate, info);
    UtilCache.ElementsSnoc(r.toRemove, info.id);
  }

  lemma RouteOneAgrees(r: Routing, info: Info, filter: Info -> bool)
    requires RouteAgrees(r, filter)
    ensures RouteAgrees(RouteOne(r, info, filter(info)), filter)
  {
    var n := RouteOne(r, info, filter(info));
    forall i | 0 <= i < |n.toAdd|
      ensures filter(n.toAdd[i])
    {
      if i < |r.toAdd| {
        assert n.toAdd[i] == r.toAdd[i];
      }
    }
    forall i | 0 <= i < |n.toUpdate|
      ensures filter(n.toUpdate[i])
    {
      if i < |r.toUpdate| {
        assert n.toUpdate[i] == r.toUpdate[i];
      }
    }
  }

  lemma {:induction false} RouteFromSafe(displayed: map<int, Info>, r: Routing, changed: seq<Info>, filter: Info -> bool)
    requires RouteSafe(displayed, r) && Keyed(r.hidden)
    ensures RouteSafe(displayed, RouteFrom(r, changed, filter))
    ensures Keyed(RouteFrom(r, changed, filter).hidden)
    decreases |changed|
  {
    if changed != [] {
      var init := changed[..|changed| - 1];
      var last := changed[|changed| - 1];
      RouteFromSafe(displayed, r, init, filter);
      RouteOneSafe(displayed, RouteFrom(r, init, filter), last, filter(last));
    }
  }

  lemma {:induction false} RouteFromAgrees(r: Routing, changed: seq<Info>, filter: Info -> bool)
    requires RouteAgrees(r, filter)
    ensures RouteAgrees(RouteFrom(r, changed, filter), filter)
    decreases |changed|
  {
    if changed != [] {
      var init := changed[..|changed| - 1];
      var last := changed[|changed| - 1];
      RouteFromAgrees(r, init, filter);
      RouteOneAgrees(RouteFrom(r, init, filter), last, filter);
    }
  }

  /** update_items keeps the list keyed and partitioned, whatever the batch of changed infos. */
  lemma UpdateKeepsPartition(displayed: map<int, Info>, hidden: map<int, Info>,
                             changed: seq<Info>, filter: Info -> bool)
    requires Keyed(displayed) && Keyed(hidden) && Partitioned(displayed, hidden)
    ensures Keyed(Apply(displayed, Route(hidden, changed, filter)))
    ensures Keyed(Route(hidden, changed, filter).hidden)
    ensures Partitioned(Apply(displayed, Route(hidden, changed, filter)), Route(hidden, changed, filter).hidden)
  {
    assert Ids([]) == {};
    RouteFromSafe(displayed, Routing(hidden, [], [], []), changed, filter);
    var r := Route(hidden, changed, filter);
    var d := Apply(displayed, r);
    forall id | id in d
      ensures id !in r.hidden
    {
      assert id in displayed || id in Ids(r.toAdd) || id in Ids(r.toUpdate);
    }
  }

  /** update_items keeps the filter's verdict on every displayed and every hidden info. */
  lemma UpdateKeepsAgreement(displayed: map<int, Info>, hidden: map<int, Info>,
                             changed: seq<Info>, filter: Info -> bool)
    requires Agrees(displayed, hidden, filter)
    ensures Agrees(Apply(displayed, Route(hidden, changed, filter)), Route(hidden, changed, filter).hidden, filter)
  {
    var r := Route(hidden, changed, filter);
    RouteFromAgrees(Routing(hidden, [], [], []), changed, filter);
    var d := Apply(displayed, r);
    var added, updated := InfoMap(r.toAdd), InfoMap(r.toUpdate);
    InfoMapValues(r.toAdd);
    InfoMapValues(r.toUpdate);
    forall id | id in d
      ensures filter(d[id])
    {
      if id in updated {
        var i :| 0 <= i < |r.toUpdate| && r.toUpdate[i] == updated[id];
      } else if id in added {
        var i :| 0 <= i < |r.toAdd| && r.toAdd[i] == added[id];
      }
    }
  }

  /** update_items' loop, which fills the work lists and refiles hidden infos. */
  method RouteChanges(hidden: map<int, Info>, changed: seq<Info>, filter: Info -> bool)
    returns (h: map<int, Info>, toAdd: seq<Info>, toRemove: seq<int>, toUpdate: seq<Info>)
    ensures Routing(h, toAdd, toRemove, toUpdate) == Route(hidden, changed, filter)
  {
    h, toAdd, toRemove, toUpdate := hidden, [], [], [];
    var i := 0;
    while i < |changed|
      invariant 0 <= i <= |changed|
      invariant Routing(h, toAdd, toRemove, toUpdate) == Route(hidden, changed[..i], filter)
    {
      var info := changed[i];
      assert changed[..i + 1][..i] == changed[..i];
      var shouldShow := filter(info);
      if info.id in h {
        if shouldShow {
          toAdd := toAdd + [info];
          h := h - {info.id};
        } else {
          h := h[info.id := info];
        }
      } else {
        if !shouldShow {
          toRemove := toRemove + [info.id];
          h := h[info.id := info];
        } else {
          toUpdate := toUpdate + [info];
        }
      }
      i := i + 1;
    }
    assert changed[..i] == changed;
  }

  // ------------------------------------------------------------ update_items, one id at a time

  function Lookup(m: map<int, Info>, id: int): Option<Info>
  {
    if id in m then Some(m[id]) else None
  }

  /** Where one id stands in a routing: hidden as, to be added as, to be updated as, to be removed. */
  function Standing(r: Routing, id: int): (Option<Info>, Option<Info>, Option<Info>, bool)
  {
    (Lookup(r.hidden, id), Lookup(InfoMap(r.toAdd), id), Lookup(InfoMap(r.toUpdate), id),
     id in Elements(r.toRemove))
  }

  /** Routing an info about another id leaves an id where it stood. */
  lemma RouteOneOther(r: Routing, info: Info, show: bool, id: int)
    requires info.id != id
    ensures Standing(RouteOne(r, info, show), id) == Standing(r, id)
  {
    InfoMapSnoc(r.toAdd, info);
    InfoMapSnoc(r.toUpdate, info);
    UtilCache.ElementsSnoc(r.toRemove, info.id);
  }

  /** Routing the one info about an id that stood nowhere but perhaps in `_hidden_items`. */
  lemma RouteOneSelf(r: Routing, info: Info, show: bool)
    requires Standing(r, info.id).1.None? && Standing(r, info.id).2.None? && !Standing(r, info.id).3
    ensures var hv := Standing(r, info.id).0;
      Standing(RouteOne(r, info, show), info.id) ==
        if show then (None, if hv.Some? then Some(info) else None, if hv.None? then Some(info) else None, false)
        else (Some(info), None, None, hv.None?)
  {
    InfoMapSnoc(r.toAdd, info);
    InfoMapSnoc(r.toUpdate, info);
    UtilCache.ElementsSnoc(r.toRemove, info.id);
  }

  lemma {:induction false} RouteFromOthers(r: Routing, changed: seq<Info>, filter: Info -> bool, id: int)
    requires id !in Ids(changed)
    ensures Standing(RouteFrom(r, changed, filter), id) == Standing(r, id)
    decreases |changed|
  {
    if changed != [] {
      var init := changed[..|changed| - 1];
      var last := changed[|changed| - 1];
      IdsOfPrefix(changed, |changed| - 1);
      assert last.id in Ids(changed) by {
        assert changed[|changed| - 1] == last;
      }
      RouteFromOthers(r, init, filter, id);
      RouteOneOther(RouteFrom(r, init, filter), last, filter(last), id);
    }
  }

  lemma {:induction false} RouteFromConcat(r: Routing, a: seq<Info>, b: seq<Info>, filter: Info -> bool)
    ensures RouteFrom(r, a + b, filter) == RouteFrom(RouteFrom(r, a, filter), b, filter)
    decreases |b|
  {
    if b == [] {
      assert a + b == a;
    } else {
      assert (a + b)[..|a + b| - 1] == a + b[..|b| - 1];
      RouteFromConcat(r, a, b[..|b| - 1], filter);
    }
  }

  /** Where update_items leaves an id that the changed batch names exactly once, at k. */
  lemma RouteSingle(hidden: map<int, Info>, changed: seq<Info>, filter: Info -> bool, k: nat)
    requires k < |changed|
    requires forall j :: 0 <= j < |changed| && j != k ==> changed[j].id != changed[k].id
    ensures var info, hv := changed[k], Lookup(hidden, changed[k].id);
      Standing(Route(hidden, changed, filter), info.id) ==
        if filter(info) then (None, if hv.Some? then Some(info) else None, if hv.None? then Some(info) else None, false)
        else (Some(info), None, None, hv.None?)
  {
    var info := changed[k];
    var id := info.id;
    var pre, post := changed[..k], changed[k + 1..];
    assert changed == pre + [info] + post;
    assert id !in Ids(pre) by {
      forall j | 0 <= j < |pre| ensures pre[j].id != id { assert pre[j] == changed[j]; }
    }
    assert id !in Ids(post) by {
      forall j | 0 <= j < |post| ensures post[j].id != id { assert post[j] == changed[k + 1 + j]; }
    }
    var r0 := Routing(hidden, [], [], []);
    RouteFromConcat(r0, pre + [info], post, filter);
    RouteFromConcat(r0, pre, [info], filter);
    var p := RouteFrom(r0, pre, filter);
    assert RouteFrom(p, [info], filter) == RouteOne(p, info, filter(info)) by {
      assert [info][..0] == [];
    }
    var q := RouteOne(p, info, filter(info));
    RouteFromOthers(r0, pre, filter, id);
    assert Standing(r0, id) == (Lookup(hidden, id), None, None, false) by {
      assert Elements([]) == {};
    }
    RouteOneSelf(p, info, filter(info));
    RouteFromOthers(q, post, filter, id);
  }

  /** How the table model after update_items reads where an id stands. */
  lemma ApplyAt(displayed: map<int, Info>, r: Routing, id: int)
    ensures Standing(r, id).3 ==> id !in Apply(displayed, r)
    ensures !Standing(r, id).3 && Standing(r, id).2.Some? ==>
      id in Apply(displayed, r) && Apply(displayed, r)[id] == Standing(r, id).2.value
    ensures !Standing(r, id).3 && Standing(r, id).2.None? && Standing(r, id).1.Some? ==>
      id in Apply(displayed, r) && Apply(displayed, r)[id] == Standing(r, id).1.value
    ensures !Standing(r, id).3 && Standing(r, id).2.None? && Standing(r, id).1.None? ==>
      Lookup(Apply(displayed, r), id) == Lookup(displayed, id)
  {
  }

  /**
   * When a changed batch names an id once, update_items shows the new info
   * exactly when the filter accepts it, and hides it otherwise.
   */
  lemma UpdateFilesChangedInfo(displayed: map<int, Info>, hidden: map<int, Info>,
                               changed: seq<Info>, filter: Info -> bool, k: nat)
    requires Partitioned(displayed, hidden)
    requires k < |changed|
    requires forall j :: 0 <= j < |changed| && j != k ==> changed[j].id != changed[k].id
    ensures filter(changed[k]) ==>
      Lookup(Apply(displayed, Route(hidden, changed, filter)), changed[k].id) == Some(changed[k]) &&
      changed[k].id !in Route(hidden, changed, filter).hidden
    ensures !filter(changed[k]) ==>
      Lookup(Route(hidden, changed, filter).hidden, changed[k].id) == Some(changed[k]) &&
      changed[k].id !in Apply(displayed, Route(hidden, changed, filter))
  {
    RouteSingle(hidden, changed, filter, k);
    ApplyAt(displayed, Route(hidden, changed, filter), changed[k].id);
  }

  // ------------------------------------------------------------ remove_items

  /** remove_items' loop: hidden ids are dropped from `_hidden_items`, the rest listed for the model. */
  method SplitRemovals(hidden: map<int, Info>, ids: seq<int>) returns (h: map<int, Info>, inModel: seq<int>)
    ensures h == hidden - Elements(ids)
    ensures Elements(ids) - hidden.Keys <= Elements(inModel) <= Elements(ids)
  {
    h, inModel := hidden, [];
    var i := 0;
    while i < |ids|
      invariant 0 <= i <= |ids|
      invariant h == hidden - Elements(ids[..i])
      invariant Elements(ids[..i]) - hidden.Keys <= Elements(inModel) <= Elements(ids[..i])
    {
      var id := ids[i];
      assert ids[..i + 1] == ids[..i] + [id];
      UtilCache.ElementsSnoc(ids[..i], id);
      UtilCache.ElementsSnoc(inModel, id);
      if id in h {
        h := h - {id};
      } else {
        inModel := inModel + [id];
      }
      i := i + 1;
    }
    assert ids[..i] == ids;
  }

  /**
   * The maps remove_items leaves: each id is dropped from the hidden infos
   * or, failing that, from the model; `removed` are the ids the model loses.
   */
  method RemoveBatch(displayed: map<int, Info>, hidden: map<int, Info>, ids: seq<int>)
    returns (d: map<int, Info>, h: map<int, Info>, removed: set<int>)
    requires Partitioned(displayed, hidden)
    ensures d == displayed - Elements(ids) && h == hidden - Elements(ids)
    ensures d == displayed - removed
  {
    var inModel;
    h, inModel := SplitRemovals(hidden, ids);
    removed := Elements(inModel);
    d := displayed - removed;
    DropsSame(displayed, hidden, Elements(ids), removed);
  }

  /** remove_items keeps the list's invariant and the filter's verdict on every info. */
  lemma RemoveKeeps(displayed: map<int, Info>, hidden: map<int, Info>,
                    details: map<int, bool>, throbber: map<int, int>,
                    removed: set<int>, gone: set<int>, filter: Info -> bool)
    requires ListInv(displayed, hidden, details, throbber)
    requires displayed - removed == displayed - gone
    ensures ListInv(displayed - gone, hidden - gone, details - removed, throbber - removed)
    ensures Agrees(displayed, hidden, filter) ==> Agrees(displayed - gone, hidden - gone, filter)
  {
    assert (displayed - removed).Keys == displayed.Keys - removed;
  }

  /** Row attributes, kept only for displayed rows, lose the same entries whichever of two equal drops applies. */
  lemma AttributesDropSame<V>(attrs: map<int, V>, displayed: map<int, Info>, removed: set<int>, gone: set<int>)
    requires attrs.Keys <= displayed.Keys
    requires displayed - removed == displayed - gone
    ensures attrs - removed == attrs - gone
  {
    assert (attrs - removed).Keys == (attrs - gone).Keys by {
      forall id | id in attrs
        ensures id in removed <==> id in gone
      {
        assert id in displayed;
        assert id !in removed ==> id in displayed - removed;
        assert id !in gone ==> id in displayed - gone;
      }
    }
  }

  /** Dropping the ids the hidden infos did not hold drops every id from the model. */
  lemma DropsSame(displayed: map<int, Info>, hidden: map<int, Info>, gone: set<int>, removed: set<int>)
    requires Partitioned(displayed, hidden)
    requires gone - hidden.Keys <= removed <= gone
    ensures displayed - removed == displayed - gone
  {
    assert (displayed - removed).Keys == (displayed - gone).Keys;
  }

  /** add_items keeps the filter's verdict on every displayed and every hidden info. */
  lemma AddKeepsAgreement(displayed: map<int, Info>, hidden: map<int, Info>,
                          items: seq<Info>, filter: Info -> bool)
    requires Agrees(displayed, hidden, filter)
    ensures Agrees(displayed + InfoMap(Select(items, filter, true)),
                   hidden + InfoMap(Select(items, filter, false)), filter)
  {
    var shown, held := Select(items, filter, true), Select(items, filter, false);
    InfoMapValues(shown);
    InfoMapValues(held);
    forall id | id in InfoMap(shown)
      ensures filter(InfoMap(shown)[id])
    {
      var i :| 0 <= i < |shown| && shown[i] == InfoMap(shown)[id];
    }
    forall id | id in InfoMap(held)
      ensures !filter(InfoMap(held)[id])
    {
      var i :| 0 <= i < |held| && held[i] == InfoMap(held)[id];
    }
  }

  /** A fresh batch keeps the list keyed and partitioned. */
  lemma AddKeepsPartition(displayed: map<int, Info>, hidden: map<int, Info>,
                          items: seq<Info>, filter: Info -> bool)
    requires Keyed(displayed) && Keyed(hidden) && Partitioned(displayed, hidden)
    requires FreshBatch(items, displayed, hidden)
    ensures Keyed(displayed + InfoMap(Select(items, filter, true)))
    ensures Keyed(hidden + InfoMap(Select(items, filter, false)))
    ensures Partitioned(displayed + InfoMap(Select(items, filter, true)),
                        hidden + InfoMap(Select(items, filter, false)))
  {
    FreshBatchSplits(displayed, hidden, items, filter);
  }

  /** Inserting an empty batch, which _insert_items skips, changes nothing. */
  lemma MergeNothing(m: map<int, Info>, batch: seq<Info>)
    ensures |batch| == 0 ==> m + InfoMap(batch) == m
  {
    if |batch| == 0 {
      assert (m + InfoMap(batch)).Keys == m.Keys;
    }
  }

  /** add_items on the model and `_hidden_items`; an empty batch of additions is not sent to the model. */
  method AddBatch(displayed: map<int, Info>, hidden: map<int, Info>, items: seq<Info>, filter: Info -> bool)
    returns (d: map<int, Info>, h: map<int, Info>)
    ensures d == displayed + InfoMap(Select(items, filter, true))
    ensures h == hidden + InfoMap(Select(items, filter, false))
  {
    var toAdd;
    toAdd, h := SortBatch(hidden, items, filter);
    MergeNothing(displayed, toAdd);
    d := displayed;
    if |toAdd| != 0 {
      d := displayed + InfoMap(toAdd);
    }
  }

  /** add_items, on the whole list state: what a fresh batch keeps, and what every batch keeps. */
  lemma AddKeeps(displayed: map<int, Info>, hidden: map<int, Info>, details: map<int, bool>,
                 throbber: map<int, int>, items: seq<Info>, filter: Info -> bool)
    requires ListInv(displayed, hidden, details, throbber)
    ensures FreshBatch(items, displayed, hidden) ==>
      ListInv(displayed + InfoMap(Select(items, filter, true)),
              hidden + InfoMap(Select(items, filter, false)), details, throbber)
    ensures Agrees(displayed, hidden, filter) ==>
      Agrees(displayed + InfoMap(Select(items, filter, true)),
             hidden + InfoMap(Select(items, filter, false)), filter)
  {
    if FreshBatch(items, displayed, hidden) {
      AddKeepsPartition(displayed, hidden, items, filter);
    }
    if Agrees(displayed, hidden, filter) {
      AddKeepsAgreement(displayed, hidden, items, filter);
    }
  }

  // ------------------------------------------------------------ recalculate_hidden_items

  /** recalculate_hidden_items' first loop: hidden infos the filter now accepts leave `_hidden_items`. */
  method TakeMatching(hidden: map<int, Info>, filter: Info -> bool)
    returns (stay: map<int, Info>, matching: map<int, Info>)
    requires Keyed(hidden)
    ensures stay == Failing(hidden, filter) && matching == Matching(hidden, filter)
  {
    stay, matching := hidden, map[];
    var todo := hidden.Keys;
    while todo != {}
      invariant todo <= hidden.Keys
      invariant stay == map id | id in hidden && (id in todo || !filter(hidden[id])) :: hidden[id]
      invariant matching == map id | id in hidden && id !in todo && filter(hidden[id]) :: hidden[id]
      decreases todo
    {
      var key := Pick(todo);
      var item := hidden[key];
      if filter(item) {
        matching := matching[item.id := item];
        stay := stay - {item.id};
      }
      todo := todo - {key};
    }
    assert stay.Keys == Failing(hidden, filter).Keys;
    assert matching.Keys == Matching(hidden, filter).Keys;
  }

  /** recalculate_hidden_items' second loop: displayed infos the filter now rejects are filed as hidden. */
  method HideFailing(hidden: map<int, Info>, shown: map<int, Info>, filter: Info -> bool)
    returns (h: map<int, Info>, gone: set<int>)
    requires Keyed(shown)
    ensures h == hidden + Failing(shown, filter)
    ensures gone == Failing(shown, filter).Keys
  {
    h, gone := hidden, {};
    var todo := shown.Keys;
    while todo != {}
      invariant todo <= shown.Keys
      invariant gone == set id | id in shown && id !in todo && !filter(shown[id])
      invariant h == hidden + map id | id in shown && id !in todo && !filter(shown[id]) :: shown[id]
      decreases todo
    {
      var key := Pick(todo);
      var item := shown[key];
      if !filter(item) {
        gone := gone + {item.id};
        h := h[item.id := item];
      }
      todo := todo - {key};
    }
    assert gone == Failing(shown, filter).Keys;
    assert h.Keys == (hidden + Failing(shown, filter)).Keys;
  }

  /**
   * recalculate_hidden_items moves each info to the side the filter now
   * decides and loses none: the displayed rows are exactly the accepted infos
   * of the whole list, the hidden ones exactly the rejected infos.
   */
  lemma RecalculateSplits(displayed: map<int, Info>, hidden: map<int, Info>, filter: Info -> bool)
    requires Partitioned(displayed, hidden)
    ensures displayed + Matching(hidden, filter) - Failing(displayed, filter).Keys ==
      Matching(displayed + hidden, filter)
    ensures Failing(hidden, filter) + Failing(displayed, filter) == Failing(displayed + hidden, filter)
  {
    RecalculateShows(displayed, hidden, filter);
    RecalculateHides(displayed, hidden, filter);
  }

  lemma RecalculateShows(displayed: map<int, Info>, hidden: map<int, Info>, filter: Info -> bool)
    requires Partitioned(displayed, hidden)
    ensures displayed + Matching(hidden, filter) - Failing(displayed, filter).Keys ==
      Matching(displayed + hidden, filter)
  {
    var d := displayed + Matching(hidden, filter) - Failing(displayed, filter).Keys;
    var all := Matching(displayed + hidden, filter);
    forall id | id in d
      ensures id in all && d[id] == all[id]
    {
      if id in displayed {
        assert id !in hidden;
      }
    }
    forall id | id in all
      ensures id in d
    {
      if id in displayed {
        assert id !in hidden;
      }
    }
    assert d.Keys == all.Keys;
  }

  lemma RecalculateHides(displayed: map<int, Info>, hidden: map<int, Info>, filter: Info -> bool)
    requires Partitioned(displayed, hidden)
    ensures Failing(hidden, filter) + Failing(displayed, filter) == Failing(displayed + hidden, filter)
  {
    var h := Failing(hidden, filter) + Failing(displayed, filter);
    var rest := Failing(displayed + hidden, filter);
    forall id | id in h
      ensures id in rest && h[id] == rest[id]
    {
      if id in displayed {
        assert id !in hidden;
      }
    }
    forall id | id in rest
      ensures id in h
    {
      if id in displayed {
        assert id !in hidden;
      }
    }
    assert h.Keys == rest.Keys;
  }

  // ------------------------------------------------------------ the item list

  /** Taking ids out of a map lowers its size by the ids it held. */
  lemma RemovedCount<V>(m: map<int, V>, gone: set<int>, r: map<int, V>)
    requires r == m - gone
    ensures |r.Keys| == |m.Keys| - |m.Keys * gone|
  {
    var keys := m.Keys;
    assert r.Keys == keys - gone;
    assert keys == (keys - gone) + (keys * gone);
    assert (keys - gone) !! (keys * gone);
  }

  /**
   * ItemFilterSet: the filters a list shows through. Which infos its active
   * filters accept is left open; only its verdict on an info is modelled.
   */
  class FilterSet {
    var verdict: Info -> bool

    constructor(verdict: Info -> bool)
      ensures this.verdict == verdict
    {
      this.verdict := verdict;
    }
  }

  class ItemList {
    /** The infos in the table model, by id. */
    var displayed: map<int, Info>
    /** `_hidden_items`: the infos of this list the filter rejects, by id. */
    var hidden: map<int, Info>
    /** The rows' show-details attribute, where one is set. */
    var details: map<int, bool>
    /** The rows' throbber-value attribute, where one is set. */
    var throbber: map<int, int>
    /** filter_set: the ItemFilterSet the list consults. */
    const filterSet: FilterSet

    ghost predicate Valid()
      reads this
    {
      ListInv(displayed, hidden, details, throbber)
    }

    /** Every displayed row passes the filter set, every hidden info fails it. */
    ghost predicate Coherent()
      reads this, filterSet
    {
      Agrees(displayed, hidden, filterSet.verdict)
    }

    /** ItemList(): an empty model and no hidden items, under the filter set's initial filter. */
    constructor(filter: Info -> bool)
      ensures displayed == map[] && hidden == map[] && details == map[] && throbber == map[]
      ensures fresh(filterSet) && filterSet.verdict == filter
      ensures Valid() && Coherent()
    {
      displayed, hidden, details, throbber := map[], map[], map[], map[];
      filterSet := new FilterSet(filter);
    }

    /**
     * get_count: the number of displayed rows; with the hidden count it
     * makes up every info of the list, each counted once.
     */
    function Count(): (n: nat)
      reads this
      ensures n == |displayed.Keys|
      ensures Valid() ==> n + |hidden.Keys| == |displayed.Keys + hidden.Keys|
    {
      |displayed|
    }

    /** get_hidden_count: the number of hidden infos, which are none of the displayed rows. */
    function HiddenCount(): (n: nat)
      reads this
      ensures n == |hidden.Keys|
      ensures Valid() ==> n == |displayed.Keys + hidden.Keys| - |displayed.Keys|
    {
      |hidden|
    }

    /** add_items: accepted infos go to the model, rejected ones to `_hidden_items`. */
    method AddItems(items: seq<Info>)
      requires Valid()
      modifies this`displayed, this`hidden
      ensures displayed == old(displayed) + InfoMap(Select(items, filterSet.verdict, true))
      ensures hidden == old(hidden) + InfoMap(Select(items, filterSet.verdict, false))
      ensures FreshBatch(items, old(displayed), old(hidden)) ==> Valid()
      ensures FreshBatch(items, old(displayed), old(hidden)) ==>
        Count() == old(Count()) + |Ids(Select(items, filterSet.verdict, true))| &&
        HiddenCount() == old(HiddenCount()) + |Ids(Select(items, filterSet.verdict, false))|
      ensures old(Coherent()) ==> Coherent()
    {
      var d, h := AddBatch(displayed, hidden, items, filterSet.verdict);
      AddKeeps(displayed, hidden, details, throbber, items, filterSet.verdict);
      displayed, hidden := d, h;
    }

    /**
     * update_items: each changed info is shown, updated, hidden or kept
     * hidden as the filter decides; the model then takes the additions,
     * the updates and the removals, in that order.
     */
    method UpdateItems(changed: seq<Info>)
      requires Valid()
      modifies this`displayed, this`hidden, this`details, this`throbber
      ensures displayed == Apply(old(displayed), Route(old(hidden), changed, filterSet.verdict))
      ensures hidden == Route(old(hidden), changed, filterSet.verdict).hidden
      ensures details == old(details) - Elements(Route(old(hidden), changed, filterSet.verdict).toRemove)
      ensures throbber == old(throbber) - Elements(Route(old(hidden), changed, filterSet.verdict).toRemove)
      ensures Valid()
      ensures old(Coherent()) ==> Coherent()
    {
      var h, toAdd, toRemove, toUpdate := RouteChanges(hidden, changed, filterSet.verdict);
      ghost var r := Routing(h, toAdd, toRemove, toUpdate);
      UpdateKeepsPartition(displayed, hidden, changed, filterSet.verdict);
      if Coherent() {
        UpdateKeepsAgreement(displayed, hidden, changed, filterSet.verdict);
      }
      var removed := Elements(toRemove);
      displayed := displayed + InfoMap(toAdd) + InfoMap(toUpdate) - removed;
      hidden := h;
      details := details - removed;
      throbber := throbber - removed;
    }

    /** remove_items: each id leaves `_hidden_items` or, failing that, the model. */
    method RemoveItems(ids: seq<int>)
      requires Valid()
      modifies this`displayed, this`hidden, this`details, this`throbber
      ensures displayed == old(displayed) - Elements(ids)
      ensures hidden == old(hidden) - Elements(ids)
      ensures details == old(details) - Elements(ids) && throbber == old(throbber) - Elements(ids)
      ensures Valid()
      ensures old(Coherent()) ==> Coherent()
    {
      var d, h, removed := RemoveBatch(displayed, hidden, ids);
      RemoveKeeps(displayed, hidden, details, throbber, removed, Elements(ids), filterSet.verdict);
      AttributesDropSame(details, displayed, removed, Elements(ids));
      AttributesDropSame(throbber, displayed, removed, Elements(ids));
      displayed := d;
      hidden := h;
      details := details - removed;
      throbber := throbber - removed;
    }

    /** remove_all: the model and `_hidden_items` both emptied. */
    method RemoveAll()
      modifies this`displayed, this`hidden, this`details, this`throbber
      ensures displayed == map[] && hidden == map[] && details == map[] && throbber == map[]
      ensures Valid() && Coherent()
    {
      displayed, hidden, details, throbber := map[], map[], map[], map[];
    }

    /** select_filter / set_filters: the filter set changes, which can leave the list incoherent. */
    method SetFilter(f: Info -> bool)
      modifies filterSet
      ensures filterSet.verdict == f
    {
      filterSet.verdict := f;
    }

    /** recalculate_hidden_items: every info lands on the side the current filter decides. */
    method RecalculateHiddenItems()
      requires Valid()
      modifies this`displayed, this`hidden, this`details, this`throbber
      ensures displayed == Matching(old(displayed) + old(hidden), filterSet.verdict)
      ensures hidden == Failing(old(displayed) + old(hidden), filterSet.verdict)
      ensures details == old(details) - Failing(old(displayed), filterSet.verdict).Keys
      ensures throbber == old(throbber) - Failing(old(displayed), filterSet.verdict).Keys
      ensures Valid() && Coherent()
    {
      var atStart := displayed;
      var stay, matching := TakeMatching(hidden, filterSet.verdict);
      displayed := displayed + matching;
      var h, gone := HideFailing(stay, atStart, filterSet.verdict);
      RecalculateSplits(atStart, old(hidden), filterSet.verdict);
      displayed := displayed - gone;
      hidden := h;
      details := details - gone;
      throbber := throbber - gone;
    }

    /** set_show_details: sets the row's attribute; an id not in the model is ignored. */
    method SetShowDetails(id: int, value: bool)
      requires Valid()
      modifies this`details
      ensures id in displayed ==> details == old(details)[id := value]
      ensures id !in displayed ==> details == old(details)
      ensures Valid()
    {
      if id in displayed {
        details := details[id := value];
      }
    }

    /** update_throbber: bumps the row's counter, from 0 when unset; KeyError (false) for an id not in the model. */
    method UpdateThrobber(id: int) returns (ok: bool)
      requires Valid()
      modifies this`throbber
      ensures ok <==> id in displayed
      ensures ok ==> throbber == old(throbber)[id := (if id in old(throbber) then old(throbber)[id] else 0) + 1]
      ensures !ok ==> throbber == old(throbber)
      ensures Valid()
    {
      var counter := if id in throbber then throbber[id] else 0;
      if id !in displayed {
        return false;
      }
      throbber := throbber[id := counter + 1];
      ok := true;
    }

    /** finish_throbber: the row's counter is unset. */
    method FinishThrobber(id: int)
      requires Valid()
      modifies this`throbber
      ensures throbber == old(throbber) - {id}
      ensures Valid()
    {
      throbber := throbber - {id};
    }
  }
}
