// The decision logic of the item-list widgets (itemlistwidgets.py): the view
// toggler, the filter buttons, the resume-playback button and its holder,
// the titlebar's small-width mode, the feed toolbar's auto-download cycle,
// the details expander and the details labels' width. Drawing and text
// layout are left to the widget set; measured widths come in as values.

module ItemListWidgets {
  import opened Base

  // ------------------------------------------------------------ ViewToggler

  /** The three view types of WidgetStateStore. */
  datatype View = Standard | Album | List

  /** The signal a toggler's click emits. */
  function EventOf(view: View): string
  {
    match view
    case Standard => "normal-view-clicked"
    case Album => "album-view-clicked"
    case List => "list-view-clicked"
  }

  /** A toggler's width, or the TypeError of calling its size_request without `layout`. */
  datatype Sized = Sized(width: int) | TypeError

  /**
   * TogglerButton.size_request(self, layout) answers the surface's width.
   * Called without its `layout` argument, Python raises TypeError instead.
   */
  function TogglerSize(withLayout: bool, widths: map<View, int>, v: View): (r: Sized)
    requires v in widths
    ensures r.TypeError? <==> !withLayout
    ensures withLayout ==> r.width == widths[v]
  {
    if withLayout then Sized(widths[v]) else TypeError
  }

  /** The list comprehension over the togglers: the first TypeError ends it. */
  function SumSizes(withLayout: bool, widths: map<View, int>, views: seq<View>): (r: Sized)
    requires forall v :: v in views ==> v in widths
    ensures r.TypeError? <==> !withLayout && views != []
  {
    if views == [] then Sized(0)
    else match TogglerSize(withLayout, widths, views[0])
      case TypeError => TypeError
      case Sized(w) =>
        match SumSizes(withLayout, widths, views[1..])
        case TypeError => TypeError
        case Sized(rest) => Sized(w + rest)
  }

  /** The order `togglers.values()` walks: the three views, in some hash order. */
  predicate TogglerOrder(order: seq<View>)
  {
    |order| == 3 && Standard in order && Album in order && List in order
  }

  /** Whatever the order, the three widths add up to the same total. */
  lemma SumSizesOfTogglers(widths: map<View, int>, order: seq<View>)
    requires Standard in widths && Album in widths && List in widths
    requires TogglerOrder(order)
    ensures SumSizes(true, widths, order) == Sized(widths[Standard] + widths[Album] + widths[List])
  {
    var a, b, c := order[0], order[1], order[2];
    assert order[1..] == [b, c] && order[1..][1..] == [c] && [c][1..] == [];
    assert SumSizes(true, widths, [c]) == Sized(widths[c]);
    assert SumSizes(true, widths, [b, c]) == Sized(widths[b] + widths[c]);
    assert SumSizes(true, widths, order) == Sized(widths[a] + widths[b] + widths[c]);
    assert order == [a, b, c];
    assert a != b && a != c && b != c;
  }

  /** What ViewToggler.size_request answers: a (width, height) request, or an exception. */
  datatype SizeAnswer = Request(width: int, height: int) | RaisedTypeError

  /**
   * ViewToggler.size_request as written. The comprehension calls each
   * toggler's size_request without the `layout` it requires, so the first
   * call raises TypeError; neither the sum nor the `return w, -1` that would
   * hand back the comprehension's leaked variable is ever reached.
   */
  function SizeRequestAsWritten(widths: map<View, int>, order: seq<View>): (r: SizeAnswer)
    requires Standard in widths && Album in widths && List in widths
    requires TogglerOrder(order)
    ensures r.RaisedTypeError?
  {
    match SumSizes(false, widths, order)
    case TypeError => RaisedTypeError
    case Sized(_) => assert false; RaisedTypeError
  }

  /** Whatever the widths and the order, the request as written is never the intended one. */
  lemma SizeRequestAsWrittenIsNoWidth(widths: map<View, int>, order: seq<View>)
    requires Standard in widths && Album in widths && List in widths
    requires TogglerOrder(order)
    ensures SizeRequestAsWritten(widths, order) != SizeRequest(widths, order)
  {
  }

  /**
   * ViewToggler.size_request as intended: each toggler asked with the layout,
   * the widths side by side in any order, and the height left free.
   */
  function SizeRequest(widths: map<View, int>, order: seq<View>): (r: SizeAnswer)
    requires Standard in widths && Album in widths && List in widths
    requires TogglerOrder(order)
    ensures r == Request(widths[Standard] + widths[Album] + widths[List], -1)
  {
    SumSizesOfTogglers(widths, order);
    match SumSizes(true, widths, order)
    case Sized(width) => Request(width, -1)
    case TypeError => RaisedTypeError
  }

  /** With no toggler of negative width, the request covers each toggler. */
  lemma SizeRequestCoversEach(widths: map<View, int>, order: seq<View>, v: View)
    requires Standard in widths && Album in widths && List in widths
    requires TogglerOrder(order)
    requires forall u :: u in widths ==> widths[u] >= 0
    ensures SizeRequest(widths, order).width >= widths[v]
  {
  }

  class ViewToggler {
    var selected: View
    /** Each toggler button's pressed state. */
    var pressed: map<View, bool>
    /** The togglers packed in the box, in order. */
    var children: seq<View>
    var emitted: seq<string>

    /** Exactly the selected view's toggler is pressed. */
    ghost predicate Valid()
      reads this
    {
      pressed.Keys == {Standard, Album, List} &&
      pressed[Standard] == (selected == Standard) && pressed[Album] == (selected == Album) &&
      pressed[List] == (selected == List)
    }

    constructor()
      ensures Valid() && selected == Standard && children == [Standard, Album, List] && emitted == []
    {
      selected := Standard;
      pressed := map[Standard := true, Album := false, List := false];
      children := [Standard, Album, List];
      emitted := [];
    }

    /** switch_to_view: a different view becomes selected and only its toggler stays pressed. */
    method SwitchToView(view: View)
      requires Valid()
      modifies this`selected, this`pressed
      ensures Valid() && selected == view
      ensures view == old(selected) ==> pressed == old(pressed)
    {
      if view != selected {
        selected := view;
        var keys := [Standard, Album, List];
        for i := 0 to 3
          invariant selected == view && pressed.Keys == {Standard, Album, List}
          invariant forall j :: 0 <= j < i ==> (pressed[keys[j]] <==> keys[j] == selected)
        {
          pressed := pressed[keys[i] := keys[i] == selected];
        }
        assert keys[0] == Standard && keys[1] == Album && keys[2] == List;
      }
    }

    /** on_clicked: switch to the clicked toggler's view and emit its signal. */
    method OnClicked(view: View)
      requires Valid()
      modifies this`selected, this`pressed, this`emitted
      ensures Valid() && selected == view && emitted == old(emitted) + [EventOf(view)]
    {
      SwitchToView(view);
      emitted := emitted + [EventOf(view)];
    }

    /** hide_album_view: the album toggler leaves the box if it is there. */
    method HideAlbumView()
      modifies this`children
      ensures children == Unpacked(old(children), Album)
      ensures Album !in children
    {
      if Album in children {
        children := Unpacked(children, Album);
      }
    }

    /** show_album_view: the album toggler goes at the end of the box if it is missing. */
    method ShowAlbumView()
      modifies this`children
      ensures Album in old(children) ==> children == old(children)
      ensures Album !in old(children) ==> children == old(children) + [Album]
    {
      if Album !in children {
        children := children + [Album];
      }
    }
  }

  /** The box's children without `v` (Box.remove). */
  function Unpacked(children: seq<View>, v: View): (r: seq<View>)
    ensures v !in r && forall u :: u in r <==> u in children && u != v
    ensures v !in children ==> r == children
  {
    if children == [] then []
    else
      var rest := Unpacked(children[1..], v);
      assert forall u :: u in children <==> u == children[0] || u in children[1..];
      if children[0] == v then rest else [children[0]] + rest
  }

  /** Hiding and then showing the album toggler puts it last, the others keeping their order. */
  lemma HideThenShow(children: seq<View>)
    requires Album !in children
    ensures Unpacked(children + [Album], Album) + [Album] == children + [Album]
  {
    UnpackedAppend(children, Album);
  }

  lemma {:induction false} UnpackedAppend(children: seq<View>, v: View)
    requires v !in children
    ensures Unpacked(children + [v], v) == children
  {
    if children != [] {
      assert (children + [v])[1..] == children[1..] + [v];
      UnpackedAppend(children[1..], v);
    } else {
      assert [v][1..] == [];
    }
  }

  // ------------------------------------------------------------ ItemFilterBox

  /**
   * The buttons after adding `keys` in turn: a key without a label (the
   * KeyError of itemfilter.get_label) is skipped; a new button is enabled
   * only if it is the first button of the box.
   */
  function AddedFilters(enabled: map<string, bool>, keys: seq<string>, labels: map<string, string>): (r: map<string, bool>)
    ensures forall k :: k in r <==> k in enabled || (k in keys && k in labels)
  {
    if keys == [] then enabled
    else
      var before := AddedFilters(enabled, keys[..|keys| - 1], labels);
      var key := keys[|keys| - 1];
      assert forall k :: k in keys <==> k in keys[..|keys| - 1] || k == key;
      if key !in labels then before else before[key := before == map[]]
  }

  /** The keys of `keys` that have labels, in order. */
  function Labelled(keys: seq<string>, labels: map<string, string>): (r: seq<string>)
    ensures forall k :: k in r <==> k in keys && k in labels
  {
    if keys == [] then []
    else
      var before := Labelled(keys[..|keys| - 1], labels);
      var key := keys[|keys| - 1];
      assert forall k :: k in keys <==> k in keys[..|keys| - 1] || k == key;
      if key in labels then before + [key] else before
  }

  /** No key occurs twice. */
  predicate DistinctKeys(s: seq<string>)
  {
    forall i, j :: 0 <= i < j < |s| ==> s[i] != s[j]
  }

  /** The first labelled key, if there is one. */
  function FirstLabelled(keys: seq<string>, labels: map<string, string>): Option<string>
  {
    var known := Labelled(keys, labels);
    if known == [] then None else Some(known[0])
  }

  /**
   * Starting from an empty box, distinct keys leave exactly one button
   * enabled, that of the first key that has a label.
   */
  lemma {:induction false} OnlyFirstFilterEnabled(keys: seq<string>, labels: map<string, string>)
    requires DistinctKeys(keys)
    ensures var r := AddedFilters(map[], keys, labels);
      forall k :: k in r ==> (r[k] <==> Some(k) == FirstLabelled(keys, labels))
  {
    if keys != [] {
      var init := keys[..|keys| - 1];
      var key := keys[|keys| - 1];
      assert DistinctKeys(init);
      OnlyFirstFilterEnabled(init, labels);
      if key in labels {
        assert key !in init;
        AddOneFilter(init, key, labels);
      } else {
        assert Labelled(keys, labels) == Labelled(init, labels);
      }
    }
  }

  /** The step of OnlyFirstFilterEnabled for a new labelled key. */
  lemma AddOneFilter(init: seq<string>, key: string, labels: map<string, string>)
    requires key in labels && key !in init
    requires var before := AddedFilters(map[], init, labels);
      forall k :: k in before ==> (before[k] <==> Some(k) == FirstLabelled(init, labels))
    ensures var r := AddedFilters(map[], init + [key], labels);
      forall k :: k in r ==> (r[k] <==> Some(k) == FirstLabelled(init + [key], labels))
  {
    var keys := init + [key];
    assert keys[..|keys| - 1] == init;
    var before := AddedFilters(map[], init, labels);
    var known := Labelled(init, labels);
    assert Labelled(keys, labels) == known + [key];
    if known == [] {
      assert forall k :: k !in before;
      assert before == map[];
    } else {
      assert known[0] in known;
      assert known[0] in before;
      assert before != map[];
      assert (known + [key])[0] == known[0];
    }
  }

  class ItemFilterBox {
    /** button_map: each filter key's button, by whether it is enabled. */
    var enabled: map<string, bool>
    /** The buttons packed in the box, by key, in order. */
    var packed: seq<string>

    constructor()
      ensures enabled == map[] && packed == []
    {
      enabled, packed := map[], [];
    }

    /** add_filter: `labels` stands for itemfilter.get_label. */
    method AddFilter(key: string, labels: map<string, string>)
      modifies this
      ensures enabled == AddedFilters(old(enabled), [key], labels)
      ensures packed == old(packed) + Labelled([key], labels)
    {
      assert [key][..0] == [];
      if key !in labels {
        return;
      }
      var first := enabled == map[];
      packed := packed + [key];
      enabled := enabled[key := first];
    }

    /** add_filters: add_filter for each key in turn. */
    method AddFilters(keys: seq<string>, labels: map<string, string>)
      modifies this
      ensures enabled == AddedFilters(old(enabled), keys, labels)
      ensures packed == old(packed) + Labelled(keys, labels)
    {
      for i := 0 to |keys|
        invariant enabled == AddedFilters(old(enabled), keys[..i], labels)
        invariant packed == old(packed) + Labelled(keys[..i], labels)
      {
        assert keys[..i + 1][..i] == keys[..i];
        AddFilter(keys[i], labels);
      }
      assert keys[..|keys|] == keys;
    }

    /** set_filters: exactly the buttons whose keys are in the set are enabled. */
    method SetFilters(filterSet: set<string>)
      modifies this`enabled
      ensures enabled.Keys == old(enabled).Keys
      ensures forall k :: k in enabled ==> (enabled[k] <==> k in filterSet)
    {
      var todo := enabled.Keys;
      while todo != {}
        invariant enabled.Keys == old(enabled).Keys && todo <= enabled.Keys
        invariant forall k :: k in enabled && k !in todo ==> (enabled[k] <==> k in filterSet)
        decreases |todo|
      {
        var key := Pick(todo);
        enabled := enabled[key := key in filterSet];
        todo := todo - {key};
      }
    }
  }

  // ------------------------------------------------------------ ResumePlaybackButton

  const ResumeMinWidth := 160
  /** TEXT_PADDING_LEFT + TEXT_PADDING_RIGHT. */
  const ResumeTextPadding := 5 + 5

  /**
   * The titles make_textbox tries: the whole title, then the title cut by
   * 4, 5, ... characters (up to one less than its length) with "..." after.
   */
  function Candidates(title: string): (r: seq<string>)
    ensures |r| == if |title| > 4 then |title| - 3 else 1
    ensures r[0] == title
    ensures forall i :: 1 <= i < |r| ==> r[i] == title[..|title| - (i + 3)] + "..."
  {
    [title] + seq(if |title| > 4 then |title| - 4 else 0, k requires 0 <= k < |title| - 4 => title[..|title| - (k + 4)] + "...")
  }

  /** Each shortened candidate is shorter than the one before, and than the title. */
  lemma CandidatesShrink(title: string)
    ensures var r := Candidates(title);
      forall i :: 1 <= i < |r| ==> |r[i]| < |r[i - 1]| && |r[i]| < |title|
  {
  }

  /** The first candidate that fits, if any. */
  function FirstFit(candidates: seq<string>, fits: string -> bool): (r: Option<string>)
    ensures r.Some? ==> r.value in candidates && fits(r.value)
    ensures r.None? ==> forall c :: c in candidates ==> !fits(c)
  {
    if candidates == [] then None
    else if fits(candidates[0]) then Some(candidates[0])
    else FirstFit(candidates[1..], fits)
  }

  /** Nothing before the first fit fits. */
  lemma {:induction false} FirstFitIsFirst(candidates: seq<string>, fits: string -> bool, i: nat)
    requires i < |candidates| && FirstFit(candidates, fits) == Some(candidates[i])
    requires forall j :: 0 <= j < i ==> candidates[j] != candidates[i] || !fits(candidates[j])
    ensures forall j :: 0 <= j < i ==> !fits(candidates[j])
  {
    if i > 0 && !fits(candidates[0]) {
      FirstFitIsFirst(candidates[1..], fits, i - 1);
    }
  }

  class ResumePlaybackButton {
    var title: Option<string>
    /** The resume position in seconds; 0 stands for none. */
    var resumeTime: int
    var widthAvailable: int
    /** How many times the size request has been invalidated. */
    var invalidations: nat

    constructor()
      ensures title == None && resumeTime == 0 && widthAvailable == 0 && invalidations == 0
    {
      title, resumeTime, widthAvailable, invalidations := None, 0, 0, 0;
    }

    /** update: a new title and resume time, and a fresh size request. */
    method Update(title: Option<string>, resumeTime: int)
      modifies this`title, this`resumeTime, this`invalidations
      ensures this.title == title && this.resumeTime == resumeTime && invalidations == old(invalidations) + 1
    {
      this.title, this.resumeTime := title, resumeTime;
      invalidations := invalidations + 1;
    }

    /** set_width_available: only a different width invalidates the size request. */
    method SetWidthAvailable(width: int)
      modifies this`widthAvailable, this`invalidations
      ensures widthAvailable == width
      ensures invalidations == if width != old(widthAvailable) then old(invalidations) + 1 else old(invalidations)
    {
      if width != widthAvailable {
        widthAvailable := width;
        invalidations := invalidations + 1;
      }
    }

    /**
     * The width size_request asks for, given the measured width of the
     * title's text and of the button image: as much as the text needs, up to
     * the width available, and never less than the minimum.
     */
    function RequestedWidth(textWidthOf: string -> int, buttonWidth: int): (w: int)
      reads this
      ensures var needed := (if title.None? then 0 else textWidthOf(title.value)) + buttonWidth + ResumeTextPadding;
        w >= ResumeMinWidth &&
        (w == ResumeMinWidth || w == needed || w == widthAvailable) &&
        (w > ResumeMinWidth ==> w <= needed && w <= widthAvailable) &&
        (ResumeMinWidth <= widthAvailable <= needed ==> w == widthAvailable) &&
        (ResumeMinWidth <= needed <= widthAvailable ==> w == needed)
    {
      var textWidth := if title.None? then 0 else textWidthOf(title.value);
      var maxWidth := textWidth + buttonWidth + ResumeTextPadding;
      var width := if maxWidth < widthAvailable then maxWidth else widthAvailable;
      if width < ResumeMinWidth then ResumeMinWidth else width
    }

    /**
     * make_textbox: the whole title if its text fits, otherwise the first
     * shortened title that does, otherwise none. `fits` says whether the
     * text made from a title fits the width given.
     */
    method MakeTextbox(fits: string -> bool) returns (text: Option<string>)
      requires title.Some?
      ensures text == FirstFit(Candidates(title.value), fits)
    {
      text := ShortenToFit(title.value, fits);
    }
  }

  /** The loop of make_textbox over one title. */
  method ShortenToFit(t: string, fits: string -> bool) returns (text: Option<string>)
    ensures text == FirstFit(Candidates(t), fits)
  {
    ghost var all := Candidates(t);
    if fits(t) {
      return Some(t);
    }
    assert FirstFit(all, fits) == FirstFit(all[1..], fits);
    var cut := 4;
    while cut < |t|
      invariant 4 <= cut && cut - 3 <= |all| && (|t| > 4 ==> cut <= |t|) && (|t| <= 4 ==> cut == 4)
      invariant FirstFit(all, fits) == FirstFit(all[cut - 3..], fits)
      decreases |t| - cut
    {
      var shortened := t[..|t| - cut] + "...";
      assert all[cut - 3] == shortened;
      if fits(shortened) {
        return Some(shortened);
      }
      assert all[cut - 3..][1..] == all[cut - 2..];
      cut := cut + 1;
    }
    assert |all[cut - 3..]| == 0;
    text := None;
  }

  // ------------------------------------------------------------ ResumeButtonHolder

  const HolderPad := 10

  class ResumeButtonHolder {
    const button: ResumePlaybackButton
    var buttonShown: bool
    /** The holder's size request; (-1, -1) leaves it to the widget set. */
    var sizeRequest: (int, int)

    constructor(button: ResumePlaybackButton)
      ensures this.button == button && !buttonShown && sizeRequest == (-1, -1)
    {
      this.button := button;
      buttonShown, sizeRequest := false, (-1, -1);
    }

    /** show: once shown, the holder asks for the button's minimum width and the padding. */
    method Show()
      modifies this`buttonShown, this`sizeRequest
      ensures buttonShown
      ensures old(buttonShown) ==> sizeRequest == old(sizeRequest)
      ensures !old(buttonShown) ==> sizeRequest == (ResumeMinWidth + HolderPad + HolderPad, -1)
    {
      if buttonShown {
        return;
      }
      buttonShown := true;
      sizeRequest := (ResumeMinWidth + HolderPad + HolderPad, -1);
    }

    /** hide: once hidden, the holder asks for no space. */
    method Hide()
      modifies this`buttonShown, this`sizeRequest
      ensures !buttonShown
      ensures !old(buttonShown) ==> sizeRequest == old(sizeRequest)
      ensures old(buttonShown) ==> sizeRequest == (0, 0)
    {
      if !buttonShown {
        return;
      }
      buttonShown := false;
      sizeRequest := (0, 0);
    }

    /** do_size_allocated: the button is told the width inside the padding. */
    method DoSizeAllocated(width: int)
      modifies button`widthAvailable, button`invalidations
      ensures button.widthAvailable == width - HolderPad - HolderPad
      ensures button.invalidations ==
        old(button.invalidations) + (if width - HolderPad - HolderPad != old(button.widthAvailable) then 1 else 0)
    {
      button.SetWidthAvailable(width - HolderPad - HolderPad);
    }
  }

  // ------------------------------------------------------------ ItemListTitlebar

  /** The size request show leaves on the holder (its button's minimum width and the padding), or hide's (0, 0). */
  function HolderRequest(shown: bool): (int, int)
  {
    if shown then (ResumeMinWidth + HolderPad + HolderPad, -1) else (0, 0)
  }

  class ItemListTitlebar {
    const usesResumeButton: bool
    const holder: ResumeButtonHolder
    /** The widths calculate_width_requests measured for small-width and normal mode. */
    const smallWidthNeeded: int
    const normalWidthNeeded: int
    var inSmallWidthMode: bool

    /**
     * With a resume button, the button shows exactly when it has a title and
     * the bar is not in small-width mode, and the holder's size request is
     * the one show or hide last set. Without one, the holder is never shown
     * and keeps its default request.
     */
    ghost predicate Valid()
      reads this, holder, holder.button
    {
      (usesResumeButton ==>
        (holder.buttonShown <==> holder.button.title.Some? && !inSmallWidthMode) &&
        holder.sizeRequest == HolderRequest(holder.buttonShown)) &&
      (!usesResumeButton ==> !holder.buttonShown && holder.sizeRequest == (-1, -1))
    }

    constructor(usesResumeButton: bool, smallWidthNeeded: int, normalWidthNeeded: int)
      ensures Valid() && fresh(holder) && fresh(holder.button)
      ensures this.usesResumeButton == usesResumeButton && !inSmallWidthMode
      ensures this.smallWidthNeeded == smallWidthNeeded && this.normalWidthNeeded == normalWidthNeeded
      ensures !holder.buttonShown && holder.button.title == None
    {
      var button := new ResumePlaybackButton();
      var h := new ResumeButtonHolder(button);
      this.usesResumeButton, this.holder := usesResumeButton, h;
      this.smallWidthNeeded, this.normalWidthNeeded := smallWidthNeeded, normalWidthNeeded;
      inSmallWidthMode := false;
      new;
      if usesResumeButton {
        // calculate_width_requests measures with the button shown, then hides it again
        holder.Show();
        holder.Hide();
      }
    }

    /** set_small_width_mode: small width hides the button; normal width shows it if it has a title. */
    method SetSmallWidthMode(enabled: bool)
      modifies holder`buttonShown, holder`sizeRequest
      ensures !usesResumeButton ==> holder.buttonShown == old(holder.buttonShown)
      ensures usesResumeButton && enabled ==> !holder.buttonShown
      ensures usesResumeButton && !enabled ==>
        holder.buttonShown == (old(holder.buttonShown) || holder.button.title.Some?)
      ensures !usesResumeButton ==> holder.sizeRequest == old(holder.sizeRequest)
      ensures usesResumeButton && enabled ==>
        holder.sizeRequest == (if old(holder.buttonShown) then HolderRequest(false) else old(holder.sizeRequest))
      ensures usesResumeButton && !enabled ==>
        holder.sizeRequest ==
          (if !old(holder.buttonShown) && holder.button.title.Some? then HolderRequest(true)
           else old(holder.sizeRequest))
    {
      if usesResumeButton {
        if enabled {
          holder.Hide();
        } else if holder.button.title.Some? {
          holder.Show();
        }
      }
    }

    /** do_size_allocated: below the normal width the bar goes into small-width mode, and back. */
    method DoSizeAllocated(width: int)
      requires Valid()
      modifies this`inSmallWidthMode, holder`buttonShown, holder`sizeRequest
      ensures Valid() && inSmallWidthMode == (width < normalWidthNeeded)
      ensures inSmallWidthMode == old(inSmallWidthMode) ==>
        holder.buttonShown == old(holder.buttonShown) && holder.sizeRequest == old(holder.sizeRequest)
    {
      var small := width < normalWidthNeeded;
      if small != inSmallWidthMode {
        SetSmallWidthMode(small);
        inSmallWidthMode := small;
      }
    }

    /** update_resume_button: no title always hides the button; a title shows it unless the bar is small. */
    method UpdateResumeButton(text: Option<string>, resumeTime: int)
      requires Valid() && usesResumeButton
      modifies holder`buttonShown, holder`sizeRequest, holder.button`title, holder.button`resumeTime,
               holder.button`invalidations
      ensures Valid() && holder.button.title == text && holder.button.resumeTime == resumeTime
      ensures text.None? ==> !holder.buttonShown
      ensures holder.buttonShown <==> text.Some? && !inSmallWidthMode
      ensures holder.sizeRequest == HolderRequest(holder.buttonShown)
      ensures holder.button.invalidations == old(holder.button.invalidations) + 1
    {
      holder.button.Update(text, resumeTime);
      if text.None? {
        holder.Hide();
      } else if !inSmallWidthMode {
        holder.Show();
      }
    }
  }

  // ------------------------------------------------------------ FeedToolbar

  /** The auto-download button's states, by toggle state 0, 1 and 2. */
  const AutodownloadModes: seq<string> := ["off", "new", "all"]
  /** Seconds before a change of auto-download mode is reported. */
  const AutodownloadDelay := 3

  /** The toggle state a mode name sets, if it is one of the three. */
  function ModeIndex(mode: string): (r: Option<nat>)
    ensures r.Some? <==> mode in AutodownloadModes
    ensures r.Some? ==> r.value < 3 && AutodownloadModes[r.value] == mode
  {
    if mode == "off" then Some(0) else if mode == "new" then Some(1) else if mode == "all" then Some(2) else None
  }

  /** Each toggle state's mode name sets that state again. */
  lemma ModeRoundTrip(state: nat)
    requires state < 3
    ensures ModeIndex(AutodownloadModes[state]) == Some(state)
  {
  }

  /** A click moves the toggle state on by one, round the three states. */
  function NextState(state: nat): (r: nat)
    requires state < 3
    ensures r < 3 && r != state
  {
    (state + 1) % 3
  }

  /** Three clicks bring the button back to where it was; one or two do not. */
  lemma {:induction false} ThreeClicksCycle(state: nat)
    requires state < 3
    ensures NextState(NextState(NextState(state))) == state
    ensures NextState(NextState(state)) != state
  {
    if state == 0 {
      assert NextState(0) == 1 && NextState(1) == 2 && NextState(2) == 0;
    } else if state == 1 {
      assert NextState(1) == 2 && NextState(2) == 0 && NextState(0) == 1;
    } else {
      assert NextState(2) == 0 && NextState(0) == 1 && NextState(1) == 2;
    }
  }

  class FeedToolbar {
    var toggleState: nat
    /** The value of the pending auto-download timeout, if one is scheduled. */
    var pending: Option<string>
    /** How many pending timeouts were cancelled. */
    var cancelled: nat
    /** The 'auto-download-changed' signals emitted. */
    var emitted: seq<string>

    ghost predicate Valid()
      reads this
    {
      toggleState < 3
    }

    constructor()
      ensures Valid() && toggleState == 0 && pending == None && cancelled == 0 && emitted == []
    {
      toggleState, pending, cancelled, emitted := 0, None, 0, [];
    }

    /** set_autodownload_mode: a known mode sets the button; any other string is ignored. */
    method SetAutodownloadMode(mode: string)
      requires Valid()
      modifies this`toggleState
      ensures Valid()
      ensures ModeIndex(mode).Some? ==> toggleState == ModeIndex(mode).value
      ensures ModeIndex(mode).None? ==> toggleState == old(toggleState)
    {
      if mode == "off" {
        toggleState := 0;
      } else if mode == "new" {
        toggleState := 1;
      } else if mode == "all" {
        toggleState := 2;
      }
    }

    /**
     * _on_autodownload_changed: any pending report is cancelled, the button
     * moves to the next state, and that state's mode is reported after the
     * delay.
     */
    method OnAutodownloadChanged()
      requires Valid()
      modifies this`toggleState, this`pending, this`cancelled
      ensures Valid() && toggleState == NextState(old(toggleState))
      ensures pending == Some(AutodownloadModes[toggleState])
      ensures cancelled == if old(pending).Some? then old(cancelled) + 1 else old(cancelled)
    {
      if pending.Some? {
        cancelled := cancelled + 1;
        pending := None;
      }
      toggleState := (toggleState + 1) % 3;
      pending := Some(AutodownloadModes[toggleState]);
    }

    /** _on_autodownload_changed_timeout: the scheduled value is reported. */
    method OnTimeout()
      requires pending.Some?
      modifies this`pending, this`emitted
      ensures pending == None && emitted == old(emitted) + [old(pending).value]
    {
      emitted := emitted + [pending.value];
      pending := None;
    }
  }

  // ------------------------------------------------------------ item details

  class ItemDetailsExpanderButton {
    var mode: string

    constructor()
      ensures mode == "expand" && ClickShouldExpand()
    {
      mode := "expand";
    }

    /** click_should_expand. */
    predicate ClickShouldExpand()
      reads this
    {
      mode == "expand"
    }

    /** set_mode: `ok` is false for the ValueError of any mode but 'expand' and 'contract'. */
    method SetMode(mode: string) returns (ok: bool)
      modifies this`mode
      ensures ok <==> mode == "expand" || mode == "contract"
      ensures ok ==> this.mode == mode
      ensures !ok ==> this.mode == old(this.mode)
      ensures ok ==> (ClickShouldExpand() <==> mode == "expand")
      ensures !ok ==> (ClickShouldExpand() <==> old(ClickShouldExpand()))
    {
      if mode != "expand" && mode != "contract" {
        return false;
      }
      this.mode := mode;
      ok := true;
    }
  }

  /** IMAGE_SIZE[0], PADDING_CONTENT_LEFT and PADDING_RIGHT of ItemDetailsWidget. */
  const DetailsImageWidth := 190
  const DetailsPaddingLeft := 25
  const DetailsPaddingRight := 30

  /** The details labels' width: the allocation less the image and the padding, or 0 when that is below 1. */
  function LabelWidth(allocatedWidth: int): (w: int)
    ensures w >= 0
    ensures w == 0 <==> allocatedWidth < DetailsImageWidth + DetailsPaddingLeft + DetailsPaddingRight + 1
    ensures w > 0 ==> w + DetailsImageWidth + DetailsPaddingLeft + DetailsPaddingRight == allocatedWidth
  {
    var w := allocatedWidth - DetailsImageWidth - DetailsPaddingLeft - DetailsPaddingRight;
    if w < 1 then 0 else w
  }

  class ItemDetailsWidget {
    var allocatedWidth: int
    /** The width last requested for the title, description and extra-info labels. */
    var labelWidth: Option<int>

    constructor()
      ensures allocatedWidth == -1 && labelWidth == None
    {
      allocatedWidth, labelWidth := -1, None;
    }

    /** do_size_allocated: only a new width resizes the labels. */
    method DoSizeAllocated(width: int)
      modifies this
      ensures allocatedWidth == width
      ensures width == old(allocatedWidth) ==> labelWidth == old(labelWidth)
      ensures width != old(allocatedWidth) ==> labelWidth == Some(LabelWidth(width))
    {
      if width == allocatedWidth {
        return;
      }
      allocatedWidth := width;
      labelWidth := Some(LabelWidth(allocatedWidth));
    }
  }
}
