// The list view's columns (itemlistwidgets.py): sort indicators, the set of
// sorter columns, and how ListView.allocate_widths shares the width it is
// given among the resizable columns.

module ListViews {
  /** No name occurs twice. */
  predicate Distinct(s: seq<string>)
  {
    forall i, j :: 0 <= i < j < |s| ==> s[i] != s[j]
  }

  predicate AllIn(names: seq<string>, widths: map<string, int>)
  {
    forall i :: 0 <= i < |names| ==> names[i] in widths
  }

  /** The total width of the named columns. */
  function Sum(names: seq<string>, widths: map<string, int>): int
    requires AllIn(names, widths)
  {
    if names == [] then 0
    else Sum(names[..|names| - 1], widths) + widths[names[|names| - 1]]
  }

  /** sum(resizing.values()), the weights visited in the order of `names`. */
  function WeightSum(names: seq<string>, resizing: map<string, real>): real
  {
    if names == [] then 0.0
    else
      var n := names[|names| - 1];
      WeightSum(names[..|names| - 1], resizing) + (if n in resizing then resizing[n] else 0.0)
  }

  // ------------------------------------------------------------ one pass of the allocation loop

  /**
   * Where a pass over the resizing columns has got to: the widths so far, the
   * columns clipped at their minimum, the rounded-off fraction carried
   * forward, the whole pixels handed out, and how much the widths grew.
   */
  datatype Pass = Pass(widths: map<string, int>, clipped: set<string>, rounded: real, handed: int, grown: int)

  /**
   * One column of the pass: divmod(extra_each * weight + rounded, 1) gives
   * the whole pixels and the new carry; the width is clipped at the minimum.
   */
  function Step(p: Pass, n: string, weight: real, extraEach: real, minWidth: int): Pass
    requires n in p.widths
  {
    var x := extraEach * weight + p.rounded;
    var extra := x.Floor;
    var ideal := p.widths[n] + extra;
    var clippedWidth := if ideal < minWidth then minWidth else ideal;
    Pass(p.widths[n := clippedWidth],
         if clippedWidth != ideal then p.clipped + {n} else p.clipped,
         x - extra as real,
         p.handed + extra,
         p.grown + (clippedWidth - p.widths[n]))
  }

  /** The pass over the columns of `names` that are still in `resizing`, in that order. */
  function Fold(names: seq<string>, resizing: map<string, real>, start: Pass, extraEach: real,
                minWidth: string -> int): (p: Pass)
    requires AllIn(names, start.widths)
    ensures p.widths.Keys == start.widths.Keys
  {
    if names == [] then start
    else
      var q := Fold(names[..|names| - 1], resizing, start, extraEach, minWidth);
      var n := names[|names| - 1];
      if n in resizing then Step(q, n, resizing[n], extraEach, minWidth(n)) else q
  }

  /** The pass leaves alone every column it does not visit. */
  lemma {:induction false} FoldLeavesOthers(names: seq<string>, resizing: map<string, real>, start: Pass,
                                            extraEach: real, minWidth: string -> int, n: string)
    requires AllIn(names, start.widths) && n in start.widths
    requires n !in resizing || forall i :: 0 <= i < |names| ==> names[i] != n
    ensures Fold(names, resizing, start, extraEach, minWidth).widths[n] == start.widths[n]
  {
    if names != [] {
      FoldLeavesOthers(names[..|names| - 1], resizing, start, extraEach, minWidth, n);
    }
  }

  /**
   * Every visited column ends at or above its minimum width, a clipped one
   * exactly at it, and only visited columns are clipped.
   */
  lemma {:induction false} FoldRespectsMinimum(names: seq<string>, resizing: map<string, real>, start: Pass,
                                               extraEach: real, minWidth: string -> int)
    requires AllIn(names, start.widths) && Distinct(names)
    ensures var p := Fold(names, resizing, start, extraEach, minWidth);
      (forall i :: 0 <= i < |names| && names[i] in resizing ==> p.widths[names[i]] >= minWidth(names[i])) &&
      (forall n :: n in p.clipped && n !in start.clipped ==>
        n in resizing && (exists i :: 0 <= i < |names| && names[i] == n) && p.widths[n] == minWidth(n)) &&
      start.clipped <= p.clipped
  {
    if names != [] {
      var init := names[..|names| - 1];
      var n := names[|names| - 1];
      FoldRespectsMinimum(init, resizing, start, extraEach, minWidth);
      var q := Fold(init, resizing, start, extraEach, minWidth);
      var p := Fold(names, resizing, start, extraEach, minWidth);
      forall i | 0 <= i < |names| && names[i] in resizing
        ensures p.widths[names[i]] >= minWidth(names[i])
      {
        if i < |init| {
          assert init[i] == names[i];
        }
      }
      forall m | m in p.clipped && m !in start.clipped
        ensures m in resizing && (exists i :: 0 <= i < |names| && names[i] == m) && p.widths[m] == minWidth(m)
      {
        if m != n {
          var i :| 0 <= i < |init| && init[i] == m;
          assert names[i] == m;
        } else {
          assert names[|names| - 1] == m;
        }
      }
    }
  }

  /** What the pass owes the columns of `names` still resizing: extra_each times each weight. */
  function Owed(names: seq<string>, resizing: map<string, real>, extraEach: real): real
  {
    if names == [] then 0.0
    else
      var n := names[|names| - 1];
      Owed(names[..|names| - 1], resizing, extraEach) + (if n in resizing then extraEach * resizing[n] else 0.0)
  }

  /** What is owed is extra_each times the total weight. */
  lemma {:induction false} OwedIsShare(names: seq<string>, resizing: map<string, real>, extraEach: real)
    ensures Owed(names, resizing, extraEach) == extraEach * WeightSum(names, resizing)
  {
    if names != [] {
      var init := names[..|names| - 1];
      var n := names[|names| - 1];
      OwedIsShare(init, resizing, extraEach);
      var w := if n in resizing then resizing[n] else 0.0;
      assert extraEach * (WeightSum(init, resizing) + w) == extraEach * WeightSum(init, resizing) + extraEach * w;
    }
  }

  /** divmod(x, 1) splits x into whole pixels and a carry in [0, 1) without losing anything. */
  lemma StepCarries(q: Pass, n: string, weight: real, extraEach: real, minWidth: int)
    requires n in q.widths
    ensures var p := Step(q, n, weight, extraEach, minWidth);
      0.0 <= p.rounded < 1.0 &&
      (p.handed - q.handed) as real + p.rounded == q.rounded + extraEach * weight
  {
  }

  /**
   * The carry: the whole pixels handed out plus the fraction still carried
   * add up to what is owed, and the carry stays in [0, 1).
   */
  lemma {:induction false} FoldCarries(names: seq<string>, resizing: map<string, real>, start: Pass,
                                       extraEach: real, minWidth: string -> int)
    requires AllIn(names, start.widths)
    requires 0.0 <= start.rounded < 1.0
    ensures var p := Fold(names, resizing, start, extraEach, minWidth);
      0.0 <= p.rounded < 1.0 &&
      (p.handed - start.handed) as real + p.rounded == start.rounded + Owed(names, resizing, extraEach)
  {
    if names != [] {
      var init := names[..|names| - 1];
      var n := names[|names| - 1];
      FoldCarries(init, resizing, start, extraEach, minWidth);
      var q := Fold(init, resizing, start, extraEach, minWidth);
      if n in resizing {
        StepCarries(q, n, resizing[n], extraEach, minWidth(n));
        assert Owed(names, resizing, extraEach) == Owed(init, resizing, extraEach) + extraEach * resizing[n];
      }
    }
  }

  lemma {:induction false} SumUnchangedOutside(names: seq<string>, widths: map<string, int>, n: string, v: int)
    requires AllIn(names, widths)
    requires forall i :: 0 <= i < |names| ==> names[i] != n
    ensures AllIn(names, widths[n := v])
    ensures Sum(names, widths[n := v]) == Sum(names, widths)
  {
    if names != [] {
      SumUnchangedOutside(names[..|names| - 1], widths, n, v);
    }
  }

  /** The visited columns grow by exactly what the pass reports; without clipping that is what it handed out. */
  lemma {:induction false} FoldGrows(names: seq<string>, resizing: map<string, real>, start: Pass,
                                     extraEach: real, minWidth: string -> int)
    requires AllIn(names, start.widths) && Distinct(names) && start.clipped == {}
    ensures var p := Fold(names, resizing, start, extraEach, minWidth);
      AllIn(names, p.widths) &&
      Sum(names, p.widths) == Sum(names, start.widths) + (p.grown - start.grown) &&
      (p.clipped == {} ==> p.grown - start.grown == p.handed - start.handed)
  {
    if names != [] {
      var init := names[..|names| - 1];
      var n := names[|names| - 1];
      FoldGrows(init, resizing, start, extraEach, minWidth);
      var q := Fold(init, resizing, start, extraEach, minWidth);
      assert forall i :: 0 <= i < |init| ==> init[i] != n by {
        forall i | 0 <= i < |init| ensures init[i] != n {
          assert init[i] == names[i];
        }
      }
      FoldLeavesOthers(init, resizing, start, extraEach, minWidth, n);
      assert q.widths[n] == start.widths[n];
      assert Sum(names, start.widths) == Sum(init, start.widths) + start.widths[n];
      if n in resizing {
        var p := Step(q, n, resizing[n], extraEach, minWidth(n));
        SumUnchangedOutside(init, q.widths, n, p.widths[n]);
        assert Sum(names, p.widths) == Sum(init, q.widths) + p.widths[n];
        assert p.grown == q.grown + (p.widths[n] - q.widths[n]);
        FoldRespectsMinimum(init, resizing, start, extraEach, minWidth);
        assert p.clipped == {} ==> q.clipped == {} && n !in p.clipped;
      } else {
        assert Sum(names, q.widths) == Sum(init, q.widths) + q.widths[n];
      }
    }
  }

  /**
   * A pass handing out a whole number `share` of pixels in total, and
   * clipping nothing, grows the columns by exactly that share: the carried
   * rounding loses no pixel.
   */
  lemma PassFills(sorters: seq<string>, resizing: map<string, real>, widths: map<string, int>,
                  extraEach: real, share: int, minWidth: string -> int)
    requires Distinct(sorters) && AllIn(sorters, widths)
    requires extraEach * WeightSum(sorters, resizing) == share as real
    ensures var p := Fold(sorters, resizing, Pass(widths, {}, 0.0, 0, 0), extraEach, minWidth);
      AllIn(sorters, p.widths) && (p.clipped == {} ==> Sum(sorters, p.widths) == Sum(sorters, widths) + share)
  {
    var start := Pass(widths, {}, 0.0, 0, 0);
    var p := Fold(sorters, resizing, start, extraEach, minWidth);
    FoldCarries(sorters, resizing, start, extraEach, minWidth);
    OwedIsShare(sorters, resizing, extraEach);
    FoldGrows(sorters, resizing, start, extraEach, minWidth);
    var left := share - p.handed;
    assert left as real == p.rounded;
    assert left == 0;
  }

  /** The pass moves only the resizing columns, keeps them at or above their minimum, and clips only among them. */
  lemma PassBounds(sorters: seq<string>, resizing: map<string, real>, widths: map<string, int>,
                   extraEach: real, minWidth: string -> int)
    requires Distinct(sorters) && AllIn(sorters, widths)
    requires forall n :: n in resizing ==> n in sorters
    ensures var p := Fold(sorters, resizing, Pass(widths, {}, 0.0, 0, 0), extraEach, minWidth);
      (forall n :: n in widths && n !in resizing ==> p.widths[n] == widths[n]) &&
      (forall n :: n in resizing ==> n in p.widths && p.widths[n] >= minWidth(n)) &&
      (forall n :: n in p.clipped ==> n in resizing && p.widths[n] == minWidth(n))
  {
    var start := Pass(widths, {}, 0.0, 0, 0);
    var p := Fold(sorters, resizing, start, extraEach, minWidth);
    forall n | n in widths && n !in resizing
      ensures p.widths[n] == widths[n]
    {
      FoldLeavesOthers(sorters, resizing, start, extraEach, minWidth, n);
    }
    FoldRespectsMinimum(sorters, resizing, start, extraEach, minWidth);
    forall n | n in resizing
      ensures n in p.widths && p.widths[n] >= minWidth(n)
    {
      var i :| 0 <= i < |sorters| && sorters[i] == n;
    }
  }

  /** How many of `names` are in `r`. */
  function Count(names: seq<string>, r: set<string>): nat
  {
    if names == [] then 0
    else Count(names[..|names| - 1], r) + (if names[|names| - 1] in r then 1 else 0)
  }

  lemma {:induction false} CountIgnoresOthers(names: seq<string>, r: set<string>, x: string)
    requires x !in names
    ensures Count(names, r) == Count(names, r - {x})
  {
    if names != [] {
      CountIgnoresOthers(names[..|names| - 1], r, x);
    }
  }

  /** Distinct names that include all of `r` count exactly its members. */
  lemma {:induction false} CountIsSize(names: seq<string>, r: set<string>)
    requires Distinct(names) && forall n :: n in r ==> n in names
    ensures Count(names, r) == |r|
  {
    if names == [] {
      assert r == {} by {
        forall n | n in r ensures false {
        }
      }
    } else {
      var init, last := names[..|names| - 1], names[|names| - 1];
      assert last !in init;
      CountIgnoresOthers(init, r, last);
      forall n | n in r - {last} ensures n in init {
        var i :| 0 <= i < |names| && names[i] == n;
      }
      CountIsSize(init, r - {last});
    }
  }

  /** Equal weights of 1 weigh as much as there are columns. */
  lemma {:induction false} OnesWeighTheirCount(names: seq<string>, r: set<string>)
    ensures WeightSum(names, map n | n in r :: 1.0) == Count(names, r) as real
  {
    if names != [] {
      OnesWeighTheirCount(names[..|names| - 1], r);
    }
  }

  /** One time round the for loop of allocate_widths. */
  method DistributeExtra(sorters: seq<string>, resizing: map<string, real>, widths: map<string, int>,
                         extraEach: real, minWidth: string -> int)
    returns (newWidths: map<string, int>, clipped: set<string>)
    requires AllIn(sorters, widths)
    ensures var p := Fold(sorters, resizing, Pass(widths, {}, 0.0, 0, 0), extraEach, minWidth);
      newWidths == p.widths && clipped == p.clipped
  {
    newWidths, clipped := widths, {};
    var rounded := 0.0;
    ghost var handed, grown := 0, 0;
    for i := 0 to |sorters|
      invariant Fold(sorters[..i], resizing, Pass(widths, {}, 0.0, 0, 0), extraEach, minWidth) ==
        Pass(newWidths, clipped, rounded, handed, grown)
    {
      assert sorters[..i + 1][..i] == sorters[..i];
      var name := sorters[i];
      if name in resizing {
        var x := extraEach * resizing[name] + rounded;
        var extra := x.Floor;
        rounded := x - extra as real;
        var idealWidth := newWidths[name] + extra;
        var clippedWidth := if idealWidth < minWidth(name) then minWidth(name) else idealWidth;
        handed, grown := handed + extra, grown + (clippedWidth - newWidths[name]);
        newWidths := newWidths[name := clippedWidth];
        if clippedWidth != idealWidth {
          clipped := clipped + {name};
        }
      }
    }
    assert sorters[..|sorters|] == sorters;
  }

  /**
   * The weights of a round and the width each unit of weight gets: the
   * columns' own weights, or integer weights of 1 when those sum to zero or
   * when an earlier round already replaced them by 1s (`integral`); with
   * integer weights Python 2 floors the integer quotient. `share` is the
   * whole number of pixels the round hands out, and `floored` says whether
   * the weights handed on are the integer 1s.
   */
  method Weigh(sorters: seq<string>, resizing: map<string, real>, integral: bool, used: int, available: int)
    returns (weights: map<string, real>, extraEach: real, floored: bool, ghost share: int)
    requires Distinct(sorters) && resizing != map[] && forall n :: n in resizing ==> n in sorters
    ensures weights.Keys == resizing.Keys
    ensures floored <==> integral || WeightSum(sorters, resizing) == 0.0
    ensures extraEach * WeightSum(sorters, weights) == share as real
    ensures !floored ==> weights == resizing && share == available - used
    ensures floored ==>
      (forall n :: n in weights ==> weights[n] == 1.0) && extraEach == ((available - used) / |resizing|) as real
    ensures share <= available - used < share + |resizing|
  {
    weights := resizing;
    var totalWeight := WeightSum(sorters, weights);
    floored := integral || totalWeight == 0.0;
    if floored {
      weights := map n | n in resizing :: 1.0;
      var count := |weights|;
      OnesWeighTheirCount(sorters, resizing.Keys);
      CountIsSize(sorters, resizing.Keys);
      SameKeysSameSize(weights, resizing);
      extraEach := ((available - used) / count) as real;
      share := (available - used) / count * count;
      FlooredShare(available - used, count);
    } else {
      extraEach := (available - used) as real / totalWeight;
      share := available - used;
    }
  }

  lemma SameKeysSameSize<V, W>(a: map<string, V>, b: map<string, W>)
    requires a.Keys == b.Keys
    ensures |a| == |b.Keys|
  {
    assert |a| == |a.Keys|;
  }

  /** Sharing `x` among `k` by floored division hands out a whole multiple of `k`, short by less than `k`. */
  lemma FlooredShare(x: int, k: int)
    requires k > 0
    ensures ((x / k) as real) * (k as real) == (x / k * k) as real
    ensures x / k * k <= x < x / k * k + k
  {
  }

  /** What one pass leaves, in terms of its result alone. */
  lemma RoundFacts(sorters: seq<string>, weights: map<string, real>, widths: map<string, int>,
                   extraEach: real, share: int, minWidth: string -> int,
                   fitted: map<string, int>, clipped: set<string>)
    requires Distinct(sorters) && AllIn(sorters, widths)
    requires forall n :: n in weights ==> n in sorters
    requires extraEach * WeightSum(sorters, weights) == share as real
    requires var p := Fold(sorters, weights, Pass(widths, {}, 0.0, 0, 0), extraEach, minWidth);
      fitted == p.widths && clipped == p.clipped
    ensures fitted.Keys == widths.Keys && AllIn(sorters, fitted)
    ensures forall n :: n in widths && n !in weights ==> fitted[n] == widths[n]
    ensures forall n :: n in weights ==> fitted[n] >= minWidth(n)
    ensures clipped <= weights.Keys && forall n :: n in clipped ==> fitted[n] == minWidth(n)
    ensures clipped == {} ==> Sum(sorters, fitted) == Sum(sorters, widths) + share
  {
    PassBounds(sorters, weights, widths, extraEach, minWidth);
    PassFills(sorters, weights, widths, extraEach, share, minWidth);
  }

  /** The weight map without the clipped columns (the `del resizing[name]` loop). */
  function Drop(weights: map<string, real>, clipped: set<string>): (r: map<string, real>)
    ensures r.Keys == weights.Keys - clipped
    ensures forall n :: n in r ==> r[n] == weights[n]
  {
    map n | n in weights && n !in clipped :: weights[n]
  }

  lemma DropShrinks(weights: map<string, real>, clipped: set<string>)
    requires clipped != {} && clipped <= weights.Keys
    ensures |Drop(weights, clipped)| < |weights|
  {
    var c :| c in clipped;
    var r := Drop(weights, clipped);
    assert r.Keys < weights.Keys by {
      assert c in weights.Keys && c !in r.Keys;
    }
    assert |r.Keys| < |weights.Keys|;
  }

  /**
   * One round of the while loop of allocate_widths: weigh the columns still
   * resizing (all equally, with integer weights of 1, once their weights
   * have summed to zero), share out the width and drop the columns that were
   * clipped. `done` is the break taken when nothing was clipped, and
   * `integralAfter` says whether the weights left are the integer 1s.
   */
  method FitRound(sorters: seq<string>, resizing: map<string, real>, integral: bool, widths: map<string, int>,
                  available: int, minWidth: string -> int)
    returns (fitted: map<string, int>, remaining: map<string, real>, integralAfter: bool, done: bool)
    requires Distinct(sorters) && AllIn(sorters, widths)
    requires resizing != map[] && forall n :: n in resizing ==> n in sorters
    ensures fitted.Keys == widths.Keys && AllIn(sorters, fitted)
    ensures integralAfter <==> integral || WeightSum(sorters, resizing) == 0.0
    ensures remaining.Keys <= resizing.Keys && (done ==> remaining.Keys == resizing.Keys)
    ensures !done ==> |remaining| < |resizing|
    ensures forall n :: n in widths && n !in resizing ==> fitted[n] == widths[n]
    ensures forall n :: n in resizing ==> fitted[n] >= minWidth(n)
    ensures forall n :: n in resizing && n !in remaining ==> fitted[n] == minWidth(n)
    ensures done && !integralAfter ==> Sum(sorters, fitted) == available
    ensures done ==> Sum(sorters, fitted) <= available < Sum(sorters, fitted) + |resizing|
  {
    var weights, extraEach;
    ghost var share;
    weights, extraEach, integralAfter, share := Weigh(sorters, resizing, integral, Sum(sorters, widths), available);
    var clipped;
    fitted, clipped := DistributeExtra(sorters, weights, widths, extraEach, minWidth);
    RoundFacts(sorters, weights, widths, extraEach, share, minWidth, fitted, clipped);
    done := clipped == {};
    if done {
      remaining := weights;
    } else {
      remaining := Drop(weights, clipped);
      DropShrinks(weights, clipped);
    }
  }

  /**
   * What the allocation loop promises: the same columns, each with a width;
   * the columns outside `resizing` untouched, those inside at least their
   * minimum; and, when anything was resized, the total within |resizing|
   * pixels of the width available, unless every resized column is at its minimum.
   */
  predicate Fitted(sorters: seq<string>, widths: map<string, int>, resizing: map<string, real>,
                   available: int, minWidth: string -> int, fitted: map<string, int>)
  {
    fitted.Keys == widths.Keys && AllIn(sorters, fitted) &&
    (forall n :: n in widths && n !in resizing ==> n in fitted && fitted[n] == widths[n]) &&
    (forall n :: n in resizing ==> n in fitted && fitted[n] >= minWidth(n)) &&
    (resizing != map[] ==>
      (Sum(sorters, fitted) <= available < Sum(sorters, fitted) + |resizing|) ||
      forall n :: n in resizing ==> fitted[n] == minWidth(n))
  }

  /**
   * The while loop of allocate_widths: rounds until one clips nothing or no
   * column is left to resize.
   */
  method FitColumns(sorters: seq<string>, widths: map<string, int>, resizing0: map<string, real>,
                    available: int, minWidth: string -> int)
    returns (fitted: map<string, int>)
    requires Distinct(sorters) && AllIn(sorters, widths)
    requires forall n :: n in resizing0 ==> n in sorters
    ensures Fitted(sorters, widths, resizing0, available, minWidth, fitted)
  {
    fitted := widths;
    var resizing := resizing0;
    var integral := false;
    while resizing != map[]
      invariant fitted.Keys == widths.Keys && AllIn(sorters, fitted)
      invariant resizing.Keys <= resizing0.Keys && |resizing| <= |resizing0|
      invariant forall n :: n in widths && n !in resizing0 ==> fitted[n] == widths[n]
      invariant forall n :: n in resizing0 && n !in resizing ==> fitted[n] == minWidth(n)
      decreases |resizing|
    {
      ghost var before := resizing;
      var done;
      fitted, resizing, integral, done := FitRound(sorters, resizing, integral, fitted, available, minWidth);
      if done {
        assert forall n :: n in resizing0 ==> fitted[n] >= minWidth(n) by {
          forall n | n in resizing0 ensures fitted[n] >= minWidth(n) {
            if n !in before {
              assert fitted[n] == minWidth(n);
            }
          }
        }
        break;
      }
    }
  }
}
