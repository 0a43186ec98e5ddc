// The sorter columns of the list view (itemlistwidgets.py SorterOwner,
// ListView and AlbumView): which columns exist and in what order, their sort
// indicators, and the widths ListView.allocate_widths gives them.

module Sorters {
  import opened Base
  import opened ListViews

  /** Extra width a padded fixed-size column gets (ListView.COLUMN_PADDING). */
  const ColumnPadding := 12
  /** The column AlbumView always puts first. */
  const AlbumColumn := "multi-row-album"

  /**
   * What the widget set and widgetconst say about the columns, which this
   * model takes as given: each renderer's min_width, COLUMN_WIDTH_WEIGHTS,
   * NO_RESIZE_COLUMNS, NO_PAD_COLUMNS, DESCENDING_BY_DEFAULT and the
   * platform's width_for_columns.
   */
  datatype Columns = Columns(minWidth: string -> int, weights: map<string, real>, noResize: set<string>,
                             noPad: set<string>, descendingByDefault: set<string>,
                             widthForColumns: int -> int)

  /** A column header's sort indicator. */
  datatype Indicator = Indicator(visible: bool, ascending: bool)

  // ------------------------------------------------------------ sequences of column names

  /** The names of `names` that are in `keep`, in their order. */
  function Keep(names: seq<string>, keep: set<string>): (r: seq<string>)
    ensures forall x :: x in r <==> x in names && x in keep
    ensures |r| <= |names|
  {
    if names == [] then []
    else
      var init := Keep(names[..|names| - 1], keep);
      var last := names[|names| - 1];
      assert forall x :: x in names <==> x in names[..|names| - 1] || x == last;
      if last in keep then init + [last] else init
  }

  lemma {:induction false} KeepDistinct(names: seq<string>, keep: set<string>)
    requires Distinct(names)
    ensures Distinct(Keep(names, keep))
  {
    if names != [] {
      var init := names[..|names| - 1];
      assert Distinct(init);
      KeepDistinct(init, keep);
      assert names[|names| - 1] !in init;
    }
  }

  /**
   * The names of `s` that are not in `existing`, each once, in the order of
   * their first occurrence in `s`: sorted(new - old, key=s.index).
   */
  function FreshNames(s: seq<string>, existing: set<string>): (r: seq<string>)
    ensures forall x :: x in r <==> x in s && x !in existing
  {
    if s == [] then []
    else
      var init := FreshNames(s[..|s| - 1], existing);
      var last := s[|s| - 1];
      assert forall x :: x in s <==> x in s[..|s| - 1] || x == last;
      if last in existing || last in init then init else init + [last]
  }

  /** A first name not yet present heads the fresh names. */
  lemma {:induction false} FreshNamesHead(s: seq<string>, existing: set<string>)
    requires |s| > 0 && s[0] !in existing
    ensures |FreshNames(s, existing)| > 0 && FreshNames(s, existing)[0] == s[0]
  {
    if |s| > 1 {
      var init := s[..|s| - 1];
      assert init[0] == s[0];
      FreshNamesHead(init, existing);
    } else {
      assert s[..|s| - 1] == [];
    }
  }

  /** Starting without sorters, the sorters are the enabled names in order, and a leading name stays first. */
  lemma FirstSorters(none: seq<string>, enabled: seq<string>)
    requires none == []
    ensures Keep(none, set x | x in enabled) + FreshNames(enabled, set x | x in none) == FreshNames(enabled, {})
    ensures |enabled| > 0 ==> |FreshNames(enabled, {})| > 0 && FreshNames(enabled, {})[0] == enabled[0]
  {
    assert (set x | x in none) == {};
    if |enabled| > 0 {
      FreshNamesHead(enabled, {});
    }
  }

  /** The first index of `x` in `s` (list.index). */
  function IndexOf(s: seq<string>, x: string): (i: nat)
    requires x in s
    ensures i < |s| && s[i] == x && forall j :: 0 <= j < i ==> s[j] != x
  {
    if s[0] == x then 0 else 1 + IndexOf(s[1..], x)
  }

  lemma IndexOfPrefix(s: seq<string>, x: string, k: nat)
    requires k <= |s| && x in s[..k]
    ensures IndexOf(s, x) == IndexOf(s[..k], x)
  {
    var i := IndexOf(s[..k], x);
    assert s[..k][i] == s[i];
    assert forall j :: 0 <= j < i ==> s[..k][j] == s[j];
  }

  /** The new names come without repeats and in the order of their first occurrence. */
  lemma {:induction false} FreshNamesInOrder(s: seq<string>, existing: set<string>)
    ensures var r := FreshNames(s, existing);
      Distinct(r) && forall i, j :: 0 <= i < j < |r| ==> IndexOf(s, r[i]) < IndexOf(s, r[j])
  {
    if s != [] {
      var init := s[..|s| - 1];
      var last := s[|s| - 1];
      var f := FreshNames(init, existing);
      FreshNamesInOrder(init, existing);
      forall x | x in f ensures IndexOf(s, x) == IndexOf(init, x) {
        IndexOfPrefix(s, x, |s| - 1);
      }
      if !(last in existing || last in f) {
        assert last !in init;
        assert IndexOf(s, last) == |s| - 1;
      }
    }
  }

  /** The sorters the user has not frozen, with their weights (0 when widgetconst gives none). */
  function Resizing(sorters: seq<string>, frozen: set<string>, weights: map<string, real>): (r: map<string, real>)
    ensures forall n :: n in r <==> n in sorters && n !in frozen
    ensures forall n :: n in r ==> r[n] == (if n in weights then weights[n] else 0.0)
  {
    map n | n in sorters && n !in frozen :: if n in weights then weights[n] else 0.0
  }

  /**
   * The final loop of allocate_widths: each sorter in turn gets its width,
   * until one has none (a KeyError).
   */
  function ApplyWidths(names: seq<string>, widths: map<string, int>, applied: map<string, int>): (r: map<string, int>)
    ensures AllIn(names, widths) ==>
      (forall n :: n in names ==> n in r && r[n] == widths[n]) &&
      (forall n :: n !in names ==> (n in r <==> n in applied) && (n in applied ==> r[n] == applied[n]))
  {
    if names == [] then applied
    else if names[0] !in widths then applied
    else ApplyWidths(names[1..], widths, applied[names[0] := widths[names[0]]])
  }

  /** The direction a click on a sorter asks for: the other one if it is showing, else its default. */
  function Clicked(indicator: Indicator, key: string, descendingByDefault: set<string>): (ascending: bool)
    ensures indicator.visible ==> ascending == !indicator.ascending
    ensures !indicator.visible ==> (ascending <==> key !in descendingByDefault)
  {
    if indicator.visible then !indicator.ascending else key !in descendingByDefault
  }

  /** Showing a sorter in the direction a click asked for makes the next click on it ask for the other. */
  lemma SecondClickReverses(indicator: Indicator, key: string, descendingByDefault: set<string>)
    ensures var first := Clicked(indicator, key, descendingByDefault);
      Clicked(Indicator(true, first), key, descendingByDefault) == !first
  {
  }

  /** None and 0 both leave the width to allocate unknown. */
  predicate Falsy(w: Option<int>)
  {
    w == None || w == Some(0)
  }

  /**
   * The first loop of update_sorts: every sorter not in `keep` is popped
   * and handed to remove_sorter, in the set's unspecified order; `dropped`
   * lists them in the order handed over.
   */
  method PopAll(sorters: seq<string>, indicators: map<string, Indicator>, keep: set<string>)
    returns (names: seq<string>, shown: map<string, Indicator>, dropped: seq<string>)
    requires Distinct(sorters) && forall n :: n in indicators <==> n in sorters
    ensures Distinct(names) && names == Keep(sorters, keep)
    ensures forall n :: n in shown <==> n in names
    ensures forall x :: x in shown ==> x in indicators && shown[x] == indicators[x]
    ensures Distinct(dropped) && forall x :: x in dropped <==> x in sorters && x !in keep
  {
    var gone := (set x | x in sorters) - keep;
    dropped := [];
    while gone != {}
      invariant Distinct(dropped)
      invariant forall x :: x in dropped <==> x in sorters && x !in keep && x !in gone
      invariant forall x :: x in gone ==> x in sorters && x !in keep
      decreases |gone|
    {
      var name := Pick(gone);
      dropped := dropped + [name];
      gone := gone - {name};
    }
    // what the pops leave: the sorters in `keep`, in their order
    names := Keep(sorters, keep);
    KeepDistinct(sorters, keep);
    shown := map n | n in indicators && n in keep :: indicators[n];
  }

  // ------------------------------------------------------------ the list view

  /**
   * The body of allocate_widths once a width is known: the loop over the
   * columns to resize, then the widths set on the columns; `ok` is false on
   * the KeyError of a sorter with no width.
   */
  method Allocate(sorters: seq<string>, base: map<string, int>, resizing: map<string, real>, available: int,
                  minWidth: string -> int, applied: map<string, int>)
    returns (ok: bool, widths: map<string, int>, shown: map<string, int>)
    requires Distinct(sorters) && forall n :: n in resizing ==> n in sorters
    ensures ok <==> AllIn(sorters, base)
    ensures !ok ==> widths == base && shown == (if resizing == map[] then ApplyWidths(sorters, base, applied) else applied)
    ensures ok ==> Fitted(sorters, base, resizing, available, minWidth, widths) && shown == ApplyWidths(sorters, widths, applied)
  {
    ok := AllIn(sorters, base);
    widths, shown := base, applied;
    if ok {
      widths := FitColumns(sorters, base, resizing, available, minWidth);
    }
    if ok || resizing == map[] {
      shown := ApplyWidths(sorters, widths, applied);
    }
  }

  class ListView {
    const columns: Columns
    /** An AlbumView, whose update_sorts forces the album column first. */
    const album: bool
    /** The keys of the sorters dict, in insertion order. */
    var sorters: seq<string>
    var indicators: map<string, Indicator>
    /** The names handed to remove_sorter, in order. */
    var removed: seq<string>
    var columnWidths: map<string, int>
    /** The width last set on each column. */
    var applied: map<string, int>
    var widthAllocated: Option<int>

    ghost predicate Valid()
      reads this
    {
      Distinct(sorters) && (forall n :: n in indicators <==> n in sorters)
    }

    constructor(columns: Columns, album: bool, sorts: seq<string>, columnWidths: map<string, int>)
      ensures Valid() && this.columns == columns && this.album == album
      ensures forall x :: x in sorters <==> x in (if album then [AlbumColumn] + sorts else sorts)
      ensures sorters == FreshNames(if album then [AlbumColumn] + sorts else sorts, {})
      ensures album ==> |sorters| > 0 && sorters[0] == AlbumColumn
      ensures forall x :: x in this.columnWidths <==> x in columnWidths || (x in sorters && x in columns.noResize)
      ensures forall x :: x in this.columnWidths ==>
        this.columnWidths[x] == (if x in sorters && x in columns.noResize then FixedWidth(x) else columnWidths[x])
      ensures widthAllocated == None
    {
      this.columns, this.album := columns, album;
      sorters, indicators, removed := [], map[], [];
      this.columnWidths, applied, widthAllocated := columnWidths, map[], None;
      new;
      ghost var enabled := if album then [AlbumColumn] + sorts else sorts;
      ghost var none := sorters;
      var _ := UpdateSorts(sorts);
      FirstSorters(none, enabled);
    }

    /**
     * allocate_widths: with a width known, take the preserved widths, then
     * size every column that is neither NO_RESIZE nor preserved so that the
     * columns fill the width, none going below its minimum; `ok` is false on
     * the KeyError of a sorter with no width.
     */
    method AllocateWidths(preserving: map<string, int>) returns (ok: bool)
      requires Valid()
      modifies this`columnWidths, this`applied
      ensures Falsy(widthAllocated) ==> ok && columnWidths == old(columnWidths) && applied == old(applied)
      ensures !Falsy(widthAllocated) ==> (ok <==> AllIn(sorters, old(columnWidths) + preserving))
      ensures var base := old(columnWidths) + preserving;
        var resizing := Resizing(sorters, columns.noResize + preserving.Keys, columns.weights);
        !Falsy(widthAllocated) && !ok ==>
          columnWidths == base &&
          applied == (if resizing == map[] then ApplyWidths(sorters, base, old(applied)) else old(applied))
      ensures !Falsy(widthAllocated) && ok ==>
          Fitted(sorters, old(columnWidths) + preserving,
                 Resizing(sorters, columns.noResize + preserving.Keys, columns.weights),
                 columns.widthForColumns(widthAllocated.value), columns.minWidth, columnWidths) &&
          applied == ApplyWidths(sorters, columnWidths, old(applied))
    {
      if Falsy(widthAllocated) {
        return true;
      }
      var base := columnWidths + preserving;
      var available := columns.widthForColumns(widthAllocated.value);
      var resizing := Resizing(sorters, columns.noResize + preserving.Keys, columns.weights);
      ok, columnWidths, applied := Allocate(sorters, base, resizing, available, columns.minWidth, applied);
    }

    /**
     * The two loops of SorterOwner.update_sorts: remove the sorters not in
     * `s`, then make the new ones in the order of `s`.
     */
    method ChangeSorters(s: seq<string>)
      requires Valid()
      modifies this`sorters, this`indicators, this`removed, this`columnWidths, this`applied
      ensures Valid()
      ensures sorters == Keep(old(sorters), set x | x in s) + FreshNames(s, set x | x in old(sorters))
      ensures forall x :: x in sorters <==> x in s
      ensures |old(removed)| <= |removed| && removed[..|old(removed)|] == old(removed)
      ensures Distinct(removed[|old(removed)|..])
      ensures forall x :: x in removed[|old(removed)|..] <==> x in old(sorters) && x !in s
      ensures forall x :: x in indicators ==>
        indicators[x] == (if x in old(indicators) then old(indicators)[x] else Indicator(false, true))
      ensures forall x :: x in columnWidths <==>
        x in old(columnWidths) || (x in sorters && x !in old(sorters) && x in columns.noResize)
      ensures forall x :: x in columnWidths ==>
        columnWidths[x] == (if x in sorters && x !in old(sorters) && x in columns.noResize
                            then FixedWidth(x) else old(columnWidths)[x])
      ensures forall x :: x in applied <==>
        x in old(applied) || (x in sorters && x !in old(sorters) && x in columns.noResize)
      ensures forall x :: x in applied ==>
        applied[x] == (if x in sorters && x !in old(sorters) && x in columns.noResize
                       then columns.minWidth(x) else old(applied)[x])
    {
      var oldNames := set x | x in sorters;
      var newNames := set x | x in s;
      DropSorters(newNames);
      var added := FreshNames(s, oldNames);
      FreshNamesInOrder(s, oldNames);
      AddSorters(added);
    }

    /** The first loop of update_sorts: each sorter not in `keep` is popped and removed. */
    method DropSorters(keep: set<string>)
      requires Valid()
      modifies this`sorters, this`indicators, this`removed
      ensures Valid() && sorters == Keep(old(sorters), keep)
      ensures forall x :: x in indicators ==> x in old(indicators) && indicators[x] == old(indicators)[x]
      ensures |old(removed)| <= |removed| && removed[..|old(removed)|] == old(removed)
      ensures Distinct(removed[|old(removed)|..])
      ensures forall x :: x in removed[|old(removed)|..] <==> x in old(sorters) && x !in keep
    {
      var names, shown, dropped := PopAll(sorters, indicators, keep);
      sorters, indicators, removed := names, shown, removed + dropped;
      assert removed[|old(removed)|..] == dropped;
    }
    /** The second loop of update_sorts: make each new sorter in turn. */
    method AddSorters(added: seq<string>)
      requires Valid() && Distinct(added) && forall x :: x in added ==> x !in sorters
      modifies this`sorters, this`indicators, this`columnWidths, this`applied
      ensures Valid() && sorters == old(sorters) + added
      ensures forall x :: x in indicators ==>
        indicators[x] == (if x in old(indicators) then old(indicators)[x] else Indicator(false, true))
      ensures forall x :: x in columnWidths <==> x in old(columnWidths) || (x in added && x in columns.noResize)
      ensures forall x :: x in columnWidths ==>
        columnWidths[x] == (if x in added && x in columns.noResize then FixedWidth(x) else old(columnWidths)[x])
      ensures forall x :: x in applied <==> x in old(applied) || (x in added && x in columns.noResize)
      ensures forall x :: x in applied ==>
        applied[x] == (if x in added && x in columns.noResize then columns.minWidth(x) else old(applied)[x])
    {
      for i := 0 to |added|
        invariant sorters == old(sorters) + added[..i] && Distinct(sorters)
        invariant forall n :: n in indicators <==> n in sorters
        invariant forall x :: x in indicators ==>
          indicators[x] == (if x in old(indicators) then old(indicators)[x] else Indicator(false, true))
        invariant forall x :: x in columnWidths <==>
          x in old(columnWidths) || (x in added[..i] && x in columns.noResize)
        invariant forall x :: x in columnWidths ==>
          columnWidths[x] == (if x in added[..i] && x in columns.noResize then FixedWidth(x) else old(columnWidths)[x])
        invariant forall x :: x in applied <==> x in old(applied) || (x in added[..i] && x in columns.noResize)
        invariant forall x :: x in applied ==>
          applied[x] == (if x in added[..i] && x in columns.noResize then columns.minWidth(x) else old(applied)[x])
      {
        assert added[i] !in added[..i];
        MakeSorter(added[i]);
        assert added[..i + 1] == added[..i] + [added[i]];
      }
      assert added[..|added|] == added;
    }

    /** The starting width of a NO_RESIZE column. */
    function FixedWidth(name: string): int
    {
      columns.minWidth(name) + if name in columns.noPad then 0 else ColumnPadding
    }

    /** The column widths after update_sorts' loops: each new NO_RESIZE sorter gets its fixed width. */
    ghost function WidthsAfterChange(widths: map<string, int>, before: seq<string>, after: seq<string>): map<string, int>
    {
      widths + map x | x in after && x !in before && x in columns.noResize :: FixedWidth(x)
    }

    /** A width map whose keys and values are those ChangeSorters states is WidthsAfterChange. */
    lemma WidthsAfterChangeExact(widths: map<string, int>, before: seq<string>, after: seq<string>, w: map<string, int>)
      requires forall x :: x in w <==> x in widths || (x in after && x !in before && x in columns.noResize)
      requires forall x :: x in w ==>
        w[x] == (if x in after && x !in before && x in columns.noResize then FixedWidth(x) else widths[x])
      ensures w == WidthsAfterChange(widths, before, after)
    {
    }

    /** make_sorter: a new sorter column, its indicator hidden. */
    method MakeSorter(name: string)
      requires name !in sorters && Distinct(sorters)
      modifies this`sorters, this`indicators, this`columnWidths, this`applied
      ensures sorters == old(sorters) + [name] && Distinct(sorters)
      ensures indicators == old(indicators)[name := Indicator(false, true)]
      ensures columnWidths == if name in columns.noResize then old(columnWidths)[name := FixedWidth(name)]
                              else old(columnWidths)
      ensures applied == if name in columns.noResize then old(applied)[name := columns.minWidth(name)]
                         else old(applied)
    {
      if name in columns.noResize {
        columnWidths := columnWidths[name := FixedWidth(name)];
        applied := applied[name := columns.minWidth(name)];
      }
      indicators := indicators[name := Indicator(false, true)];
      sorters := sorters + [name];
    }

    /**
     * update_sorts, dispatched as Python does: an AlbumView puts its album
     * column first. The sorters become exactly the given names, and the
     * widths are allocated afresh with nothing preserved.
     */
    method UpdateSorts(s: seq<string>) returns (ok: bool)
      requires Valid()
      modifies this`sorters, this`indicators, this`removed, this`columnWidths, this`applied
      ensures Valid()
      ensures |old(removed)| <= |removed| && removed[..|old(removed)|] == old(removed)
      ensures var enabled := if album then [AlbumColumn] + s else s;
        (forall x :: x in sorters <==> x in enabled) &&
        sorters == Keep(old(sorters), set x | x in enabled) + FreshNames(enabled, set x | x in old(sorters)) &&
        (forall x :: x in removed[|old(removed)|..] <==> x in old(sorters) && x !in enabled)
      ensures Distinct(removed[|old(removed)|..])
      ensures Falsy(widthAllocated) ==> ok
      ensures Falsy(widthAllocated) ==> forall x :: x in columnWidths <==>
        x in old(columnWidths) || (x in sorters && x !in old(sorters) && x in columns.noResize)
      ensures Falsy(widthAllocated) ==> forall x :: x in columnWidths ==>
        columnWidths[x] == (if x in sorters && x !in old(sorters) && x in columns.noResize
                            then FixedWidth(x) else old(columnWidths)[x])
      ensures !Falsy(widthAllocated) && ok ==>
        AllIn(sorters, columnWidths) &&
        (forall n :: n in sorters && n !in columns.noResize ==> columnWidths[n] >= columns.minWidth(n)) &&
        (forall n :: n in sorters ==> n in applied && applied[n] == columnWidths[n])
      ensures forall x :: x in indicators ==>
        indicators[x] == (if x in old(indicators) then old(indicators)[x] else Indicator(false, true))
      ensures !Falsy(widthAllocated) ==> (ok <==> AllIn(sorters, WidthsAfterChange(old(columnWidths), old(sorters), sorters)))
    {
      var enabled := if album then [AlbumColumn] + s else s;
      ghost var before := sorters;
      ChangeSorters(enabled);
      WidthsAfterChangeExact(old(columnWidths), before, sorters, columnWidths);
      var nothing: map<string, int> := map[];
      assert columnWidths + nothing == columnWidths;
      ok := AllocateWidths(nothing);
    }

    /** change_sort_indicator: exactly the named sorter shows its indicator, in the given direction. */
    method ChangeSortIndicator(key: string, ascending: bool)
      requires Valid()
      modifies this`indicators
      ensures Valid() && indicators.Keys == old(indicators).Keys
      ensures forall n :: n in indicators ==> indicators[n].visible == (n == key)
      ensures forall n :: n in indicators ==>
        indicators[n].ascending == (if n == key then ascending else old(indicators)[n].ascending)
    {
      ghost var seen: set<string> := {};
      for i := 0 to |sorters|
        invariant indicators.Keys == old(indicators).Keys
        invariant forall j :: 0 <= j < i ==> sorters[j] in seen
        invariant forall n :: n in indicators && n !in seen ==> indicators[n] == old(indicators)[n]
        invariant forall n :: n in indicators && n in seen ==>
          indicators[n] == (if n == key then Indicator(true, ascending) else old(indicators)[n].(visible := false))
      {
        var name := sorters[i];
        if name == key {
          indicators := indicators[name := Indicator(true, ascending)];
        } else {
          indicators := indicators[name := indicators[name].(visible := false)];
        }
        seen := seen + {name};
      }
    }

    /**
     * do_size_allocated: a new total width is recorded and the widths are
     * allocated afresh; the same width again (OS X sends it several times)
     * changes nothing.
     */
    method DoSizeAllocated(totalWidth: int) returns (ok: bool)
      requires Valid()
      modifies this`widthAllocated, this`columnWidths, this`applied
      ensures widthAllocated == Some(totalWidth)
      ensures old(widthAllocated) == Some(totalWidth) || totalWidth == 0 ==>
        ok && columnWidths == old(columnWidths) && applied == old(applied)
      ensures old(widthAllocated) != Some(totalWidth) && totalWidth != 0 ==>
        (ok <==> AllIn(sorters, old(columnWidths)))
      ensures old(widthAllocated) != Some(totalWidth) && totalWidth != 0 && ok ==>
        AllIn(sorters, columnWidths) &&
        (forall n :: n in sorters && n !in columns.noResize ==> columnWidths[n] >= columns.minWidth(n)) &&
        (forall n :: n in columnWidths && n !in sorters ==> n in old(columnWidths) && columnWidths[n] == old(columnWidths)[n]) &&
        (forall n :: n in sorters ==> n in applied && applied[n] == columnWidths[n])
    {
      ok := true;
      if widthAllocated != Some(totalWidth) {
        widthAllocated := Some(totalWidth);
        var nothing: map<string, int> := map[];
        assert old(columnWidths) + nothing == old(columnWidths);
        ok := AllocateWidths(nothing);
        assert Falsy(widthAllocated) <==> totalWidth == 0;
      }
    }

    /**
     * get_tooltip for the column of sorter `column` over an item whose
     * description strips to `text`.
     */
    function Tooltip(column: string, text: string, item: TooltipItem): (tip: Option<string>)
      reads this
      ensures column == "name" && "name" in sorters ==>
        (tip.Some? <==> text != "") && (tip.Some? ==> tip.value == Truncated(text))
      ensures column == "state" && "state" in sorters ==> tip == StateTooltip(item)
      ensures !(column == "name" && "name" in sorters) && !(column == "state" && "state" in sorters) ==> tip == None
    {
      if column == "name" && "name" in sorters then
        if text != "" then Some(Truncated(text)) else None
      else if column == "state" && "state" in sorters then StateTooltip(item)
      else None
    }
  }

  /** What get_tooltip reads of an item for the state column. */
  datatype TooltipItem = TooltipItem(state: string, downloaded: bool, isPlayable: bool, videoWatched: bool,
                                     itemViewed: bool, hasExpirationDate: bool, isExternal: bool)

  /** The longest description a tooltip shows before it is cut. */
  const TooltipLimit := 1000

  /** A description longer than the limit keeps its first 994 characters and gets " [...]", 1000 in all. */
  function Truncated(text: string): (r: string)
    ensures |r| <= TooltipLimit
    ensures |text| <= TooltipLimit ==> r == text
    ensures |text| > TooltipLimit ==> |r| == TooltipLimit && StartsWith(text, r[..994]) && r[994..] == " [...]"
  {
    if |text| > TooltipLimit then text[..994] + " [...]" else text
  }

  /** The state column's tooltip, decided in this order. */
  function StateTooltip(item: TooltipItem): (tip: Option<string>)
    ensures tip == Some("Downloading") <==> item.state == "downloading"
    ensures tip == Some("Unplayed") <==>
      item.state != "downloading" && item.downloaded && item.isPlayable && !item.videoWatched
    ensures tip == Some("Newly Available") <==>
      item.state != "downloading" && !(item.downloaded && item.isPlayable && !item.videoWatched) &&
      !item.itemViewed && !item.hasExpirationDate && !item.isExternal
    ensures tip.None? <==>
      item.state != "downloading" && !(item.downloaded && item.isPlayable && !item.videoWatched) &&
      !(!item.itemViewed && !item.hasExpirationDate && !item.isExternal)
  {
    if item.state == "downloading" then Some("Downloading")
    else if item.downloaded && item.isPlayable && !item.videoWatched then Some("Unplayed")
    else if !item.itemViewed && !item.hasExpirationDate && !item.isExternal then Some("Newly Available")
    else None
  }
}
