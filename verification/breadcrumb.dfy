/** The visible/hidden computation of `EllipsisBreadcrumb`
    (packages/kit/src/components/EllipsisBreadcrumb/index.tsx): the split
    made when the items change, and the greedy width fit made in the next
    animation frame. Measuring is outside: the fit takes the measured item
    widths and the container width as inputs. */
module Breadcrumb {
  import opened Wrappers

  /** A breadcrumb item; its click handler and class name play no part here */
  datatype Item = Item(title: string, key: string)

  datatype Layout = Layout(visible: seq<Item>, hidden: seq<Item>)

  /** Room left for the ellipsis button, and the margin added to each
      measured width for the separator */
  const EllipsisWidth: nat := 50
  const SeparatorMargin: nat := 30

  /** `itemWidths[i]`: the measured width plus the margin, or nothing (the
      JavaScript `undefined`, which makes every sum and comparison with it
      fail) for an item that was not measured */
  function Widths(measured: seq<nat>, n: nat): (w: seq<Option<nat>>)
    ensures |w| == n
    ensures forall i :: 0 <= i < n ==> (w[i].Some? <==> i < |measured|)
    ensures forall i :: 0 <= i < n && i < |measured| ==> w[i].value == measured[i] + SeparatorMargin
  {
    seq(n, i requires 0 <= i < n => if i < |measured| then Some(measured[i] + SeparatorMargin) else None)
  }

  /** What the loop `for (let i = …; i > 0; i--)` produces: the indices it
      adds, in the order it adds them, and the accumulated width at the end
      (None stands for NaN) */
  datatype Fitted = Fitted(added: seq<nat>, acc: Option<nat>)

  /** The loop from index `i` down to 1: an item is added when the width so
      far plus its own fits in the container */
  function Greedy(w: seq<Option<nat>>, cw: nat, i: nat, acc: Option<nat>): Fitted
    requires i < |w|
    decreases i
  {
    if i == 0 then Fitted([], acc)
    else if acc.Some? && w[i].Some? && acc.value + w[i].value <= cw then
      var r := Greedy(w, cw, i - 1, Some(acc.value + w[i].value));
      Fitted([i] + r.added, r.acc)
    else Greedy(w, cw, i - 1, acc)
  }

  /** `accumulatedWidth = itemWidths[0] + 50` */
  function StartWidth(w: seq<Option<nat>>): Option<nat>
    requires |w| > 0
  {
    if w[0].Some? then Some(w[0].value + EllipsisWidth) else None
  }

  function Reverse<T>(xs: seq<T>): (r: seq<T>)
    ensures |r| == |xs|
    ensures forall i :: 0 <= i < |xs| ==> r[i] == xs[|xs| - 1 - i]
  {
    if |xs| == 0 then [] else Reverse(xs[1..]) + [xs[0]]
  }

  /** `findIndex` by key and `splice`: drop the first item with that key */
  function RemoveFirstKey(hidden: seq<Item>, key: string): seq<Item> {
    if |hidden| == 0 then []
    else if hidden[0].key == key then hidden[1..]
    else [hidden[0]] + RemoveFirstKey(hidden[1..], key)
  }

  function RemoveAdded(items: seq<Item>, hidden: seq<Item>, added: seq<nat>): seq<Item>
    requires forall j :: 0 <= j < |added| ==> added[j] < |items|
    decreases |added|
  {
    if |added| == 0 then hidden
    else RemoveAdded(items, RemoveFirstKey(hidden, items[added[0]].key), added[1..])
  }

  /** The items at the given indices */
  function Pick(items: seq<Item>, idxs: seq<nat>): (r: seq<Item>)
    requires forall j :: 0 <= j < |idxs| ==> idxs[j] < |items|
    ensures |r| == |idxs| && forall j :: 0 <= j < |idxs| ==> r[j] == items[idxs[j]]
  {
    if |idxs| == 0 then [] else [items[idxs[0]]] + Pick(items, idxs[1..])
  }

  /** Indices added by the fit, in original order, between the first and the
      last item: what sorting `newVisibleItems` by `items.indexOf` gives */
  function VisibleIndices(n: nat, added: seq<nat>): seq<nat>
    requires n > 0
  {
    [0] + Reverse(added) + [n - 1]
  }

  /** The fit of the animation frame, for more than two items */
  function Fit(items: seq<Item>, measured: seq<nat>, cw: nat): Layout
    requires |items| > 2
  {
    var n := |items|;
    var w := Widths(measured, n);
    var r := Greedy(w, cw, n - 2, StartWidth(w));
    GreedyInRange(w, cw, n - 2, StartWidth(w));
    Layout(Pick(items, VisibleIndices(n, r.added)), RemoveAdded(items, items[1..n - 1], r.added))
  }

  /** The split made as soon as the items change: everything is visible when
      the container is not mounted or there are at most two items, otherwise
      the first and last item are visible and the middle ones hidden */
  function InitialSplit(items: seq<Item>, mounted: bool): Layout {
    if !mounted || |items| <= 2 then Layout(items, [])
    else Layout([items[0], items[|items| - 1]], items[1..|items| - 1])
  }

  /** What the measurements of the animation frame are, if the container is
      still there */
  datatype Frame = Frame(measured: seq<nat>, containerWidth: nat)

  /** The layout after the effect and, for more than two items, its animation
      frame (`None` when the container was gone by then) */
  function Settled(items: seq<Item>, mounted: bool, frame: Option<Frame>): Layout {
    if !mounted || |items| <= 2 then InitialSplit(items, mounted)
    else match frame
      case None => InitialSplit(items, mounted)
      case Some(f) => Fit(items, f.measured, f.containerWidth)
  }

  /** The initial split loses and reorders nothing: the first visible item,
      the hidden items and the last visible item put back together are the
      items; otherwise everything is visible */
  lemma InitialSplitReassembles(items: seq<Item>, mounted: bool)
    ensures var l := InitialSplit(items, mounted);
            if mounted && |items| > 2 then
              |l.visible| == 2 && [l.visible[0]] + l.hidden + [l.visible[1]] == items
            else l.visible == items && l.hidden == []
  {
  }

  // ----- The loop -----

  predicate Descending(xs: seq<nat>) {
    forall a, b :: 0 <= a < b < |xs| ==> xs[a] > xs[b]
  }

  predicate Between(xs: seq<nat>, lo: nat, hi: nat) {
    forall j :: 0 <= j < |xs| ==> lo <= xs[j] <= hi
  }

  /** The loop adds middle indices only, each once, from the back to the front */
  lemma {:induction false} GreedyInRange(w: seq<Option<nat>>, cw: nat, i: nat, acc: Option<nat>)
    requires i < |w|
    ensures Between(Greedy(w, cw, i, acc).added, 1, i)
    ensures Descending(Greedy(w, cw, i, acc).added)
    decreases i
  {
    if i > 0 {
      if acc.Some? && w[i].Some? && acc.value + w[i].value <= cw {
        GreedyInRange(w, cw, i - 1, Some(acc.value + w[i].value));
      } else {
        GreedyInRange(w, cw, i - 1, acc);
      }
    }
  }

  function SumWidths(w: seq<Option<nat>>, idxs: seq<nat>): nat
    requires forall j :: 0 <= j < |idxs| ==> idxs[j] < |w| && w[idxs[j]].Some?
  {
    if |idxs| == 0 then 0 else w[idxs[0]].value + SumWidths(w, idxs[1..])
  }

  /** The accumulated width is the starting width plus the widths added; it
      stays within the container once anything is added, and NaN at the
      start means nothing is ever added */
  lemma {:induction false} GreedyWidth(w: seq<Option<nat>>, cw: nat, i: nat, acc: Option<nat>)
    requires i < |w|
    ensures var r := Greedy(w, cw, i, acc);
            && (forall j :: 0 <= j < |r.added| ==> r.added[j] < |w| && w[r.added[j]].Some?)
            && (acc.None? ==> r == Fitted([], None))
            && (acc.Some? ==> r.acc == Some(acc.value + SumWidths(w, r.added)))
            && (acc.Some? && |r.added| > 0 ==> r.acc.value <= cw)
    decreases i
  {
    if i > 0 {
      if acc.Some? && w[i].Some? && acc.value + w[i].value <= cw {
        var acc' := Some(acc.value + w[i].value);
        GreedyWidth(w, cw, i - 1, acc');
        GreedyInRange(w, cw, i - 1, acc');
      } else {
        GreedyWidth(w, cw, i - 1, acc);
      }
    }
  }

  /** Every middle item the loop passed over would not have fit even on top
      of the final width (widths are never negative) */
  lemma {:induction false} GreedyMaximal(w: seq<Option<nat>>, cw: nat, i: nat, acc: Option<nat>, j: nat)
    requires i < |w| && 1 <= j <= i && acc.Some? && w[j].Some?
    requires j !in Greedy(w, cw, i, acc).added
    ensures Greedy(w, cw, i, acc).acc.Some? && Greedy(w, cw, i, acc).acc.value + w[j].value > cw
    decreases i
  {
    var r := Greedy(w, cw, i, acc);
    GreedyWidth(w, cw, i, acc);
    if acc.Some? && w[i].Some? && acc.value + w[i].value <= cw {
      var acc' := Some(acc.value + w[i].value);
      GreedyMaximal(w, cw, i - 1, acc', j);
    } else if j == i {
    } else {
      GreedyMaximal(w, cw, i - 1, acc, j);
    }
  }

  // ----- The layout -----

  lemma {:induction false} ReverseAscending(xs: seq<nat>, lo: nat, hi: nat)
    requires Descending(xs) && Between(xs, lo, hi)
    ensures var r := Reverse(xs);
            (forall a, b :: 0 <= a < b < |r| ==> r[a] < r[b]) && Between(r, lo, hi)
  {
  }

  predicate Ascending(xs: seq<nat>) {
    forall a, b :: 0 <= a < b < |xs| ==> xs[a] < xs[b]
  }

  /** The visible indices run upwards from the first to the last item */
  lemma {:induction false} VisibleIndicesAscending(n: nat, added: seq<nat>)
    requires n > 2 && Descending(added) && Between(added, 1, n - 2)
    ensures var idxs := VisibleIndices(n, added);
            && Ascending(idxs) && |idxs| >= 2 && idxs[0] == 0 && idxs[|idxs| - 1] == n - 1
            && forall j :: 0 <= j < |idxs| ==> idxs[j] < n
  {
    ReverseAscending(added, 1, n - 2);
    var idxs := VisibleIndices(n, added);
    var rev := Reverse(added);
    assert idxs == [0] + rev + [n - 1];
    assert forall j :: 1 <= j < |idxs| - 1 ==> idxs[j] == rev[j - 1];
  }

  /** However the visible items are ordered, the fit shows the first item,
      the last item and one item per index the loop added */
  lemma FitVisibleCount(items: seq<Item>, measured: seq<nat>, cw: nat)
    requires |items| > 2
    ensures var n := |items|;
            var w := Widths(measured, n);
            |Fit(items, measured, cw).visible| == |Greedy(w, cw, n - 2, StartWidth(w)).added| + 2
  {
  }

  /** Visible starts with the first item, ends with the last, and keeps the
      items' original order. Sorting by `items.indexOf` gives index order
      when no item occurs twice, which distinct keys ensure. */
  lemma FitVisibleOrder(items: seq<Item>, measured: seq<nat>, cw: nat)
    requires |items| > 2 && DistinctKeys(items)
    ensures var n := |items|;
            var w := Widths(measured, n);
            var idxs := VisibleIndices(n, Greedy(w, cw, n - 2, StartWidth(w)).added);
            var v := Fit(items, measured, cw).visible;
            && |v| >= 2 && v[0] == items[0] && v[|v| - 1] == items[n - 1]
            && Ascending(idxs) && idxs[0] == 0 && idxs[|idxs| - 1] == n - 1
            && |v| == |idxs| && (forall j :: 0 <= j < |v| ==> v[j] == items[idxs[j]])
  {
    var n := |items|;
    var w := Widths(measured, n);
    var added := Greedy(w, cw, n - 2, StartWidth(w)).added;
    GreedyInRange(w, cw, n - 2, StartWidth(w));
    VisibleIndicesAscending(n, added);
  }

  /** The greedy rule: when the loop shows any middle item, the first item,
      the ellipsis and the shown middle items fit in the container */
  lemma FitWithinContainer(items: seq<Item>, measured: seq<nat>, cw: nat)
    requires |items| > 2
    ensures var n := |items|;
            var w := Widths(measured, n);
            var r := Greedy(w, cw, n - 2, StartWidth(w));
            |r.added| > 0 ==> && w[0].Some?
                              && (forall j :: 0 <= j < |r.added| ==> r.added[j] < n && w[r.added[j]].Some?)
                              && w[0].value + EllipsisWidth + SumWidths(w, r.added) <= cw
  {
    var n := |items|;
    var w := Widths(measured, n);
    GreedyWidth(w, cw, n - 2, StartWidth(w));
  }

  /** Maximality: no hidden middle item with a measured width would fit on
      top of the final accumulated width */
  lemma FitIsMaximal(items: seq<Item>, measured: seq<nat>, cw: nat, j: nat)
    requires |items| > 2 && 1 <= j <= |items| - 2
    requires j < |measured| && 0 < |measured|
    requires j !in Greedy(Widths(measured, |items|), cw, |items| - 2, StartWidth(Widths(measured, |items|))).added
    ensures var w := Widths(measured, |items|);
            var r := Greedy(w, cw, |items| - 2, StartWidth(w));
            r.acc.Some? && r.acc.value + measured[j] + SeparatorMargin > cw
  {
    var w := Widths(measured, |items|);
    assert w[0] == Some(measured[0] + SeparatorMargin);
    assert w[j] == Some(measured[j] + SeparatorMargin);
    GreedyMaximal(w, cw, |items| - 2, StartWidth(w), j);
  }

  // ----- Hidden items -----

  predicate DistinctKeys(items: seq<Item>) {
    forall a, b :: 0 <= a < b < |items| ==> items[a].key != items[b].key
  }

  /** The items with index in [lo, hi) that are not in `taken`, in order */
  function Keep(items: seq<Item>, lo: nat, hi: nat, taken: set<nat>): seq<Item>
    requires lo <= hi <= |items|
    decreases hi - lo
  {
    if lo == hi then []
    else (if lo in taken then [] else [items[lo]]) + Keep(items, lo + 1, hi, taken)
  }

  /** When no other index in [lo, hi) shares item i's key, removing that key
      takes out exactly the item at index i */
  lemma {:induction false} RemoveFirstKeyKeep(items: seq<Item>, lo: nat, hi: nat, taken: set<nat>, i: nat)
    requires lo <= hi <= |items| && i < |items| && i !in taken
    requires forall j :: lo <= j < hi && j != i ==> items[j].key != items[i].key
    ensures RemoveFirstKey(Keep(items, lo, hi, taken), items[i].key)
            == Keep(items, lo, hi, taken + {i})
    decreases hi - lo
  {
    if lo < hi {
      RemoveFirstKeyKeep(items, lo + 1, hi, taken, i);
      RemoveFirstKeyStep(items, lo, hi, taken, i);
    }
  }

  /** One step of RemoveFirstKeyKeep: from [lo + 1, hi) to [lo, hi) */
  lemma RemoveFirstKeyStep(items: seq<Item>, lo: nat, hi: nat, taken: set<nat>, i: nat)
    requires lo < hi <= |items| && i < |items| && i !in taken
    requires lo != i ==> items[lo].key != items[i].key
    requires RemoveFirstKey(Keep(items, lo + 1, hi, taken), items[i].key)
             == Keep(items, lo + 1, hi, taken + {i})
    ensures RemoveFirstKey(Keep(items, lo, hi, taken), items[i].key)
            == Keep(items, lo, hi, taken + {i})
  {
    var rest := Keep(items, lo + 1, hi, taken);
    var later := Keep(items, lo + 1, hi, taken + {i});
    if lo == i {
      KeepWithout(items, lo + 1, hi, taken, i);
      KeepUnfold(items, lo, hi, taken);
      KeepUnfold(items, lo, hi, taken + {i});
      RemoveAtHead(items[lo], rest, items[i].key);
    } else if lo !in taken {
      KeepUnfold(items, lo, hi, taken);
      KeepUnfold(items, lo, hi, taken + {i});
      RemovePastHead(items[lo], rest, items[i].key);
    } else {
      KeepUnfold(items, lo, hi, taken);
      KeepUnfold(items, lo, hi, taken + {i});
    }
  }

  lemma KeepUnfold(items: seq<Item>, lo: nat, hi: nat, taken: set<nat>)
    requires lo < hi <= |items|
    ensures lo in taken ==> Keep(items, lo, hi, taken) == Keep(items, lo + 1, hi, taken)
    ensures lo !in taken ==> Keep(items, lo, hi, taken) == [items[lo]] + Keep(items, lo + 1, hi, taken)
  {
    assert [] + Keep(items, lo + 1, hi, taken) == Keep(items, lo + 1, hi, taken);
  }

  lemma RemoveAtHead(x: Item, rest: seq<Item>, key: string)
    requires x.key == key
    ensures RemoveFirstKey([x] + rest, key) == rest
  {
    assert ([x] + rest)[1..] == rest;
  }

  lemma RemovePastHead(x: Item, rest: seq<Item>, key: string)
    requires x.key != key
    ensures RemoveFirstKey([x] + rest, key) == [x] + RemoveFirstKey(rest, key)
  {
    assert ([x] + rest)[1..] == rest;
  }

  /** Adding an index outside [lo, hi) to `taken` changes nothing */
  lemma {:induction false} KeepWithout(items: seq<Item>, lo: nat, hi: nat, taken: set<nat>, i: nat)
    requires lo <= hi <= |items| && (i < lo || i >= hi)
    ensures Keep(items, lo, hi, taken + {i}) == Keep(items, lo, hi, taken)
    decreases hi - lo
  {
    if lo < hi {
      KeepWithout(items, lo + 1, hi, taken, i);
      var head := if lo in taken then [] else [items[lo]];
      assert (lo in taken + {i}) == (lo in taken);
      assert Keep(items, lo, hi, taken) == head + Keep(items, lo + 1, hi, taken);
      assert Keep(items, lo, hi, taken + {i}) == head + Keep(items, lo + 1, hi, taken + {i});
    }
  }

  function Elements(xs: seq<nat>): set<nat> {
    set j | 0 <= j < |xs| :: xs[j]
  }

  lemma {:induction false} RemoveAddedKeep(items: seq<Item>, taken: set<nat>, added: seq<nat>)
    requires |items| >= 2 && DistinctKeys(items)
    requires forall j :: 0 <= j < |added| ==> added[j] < |items| && added[j] !in taken
    requires Descending(added)
    decreases |added|
    ensures RemoveAdded(items, Keep(items, 1, |items| - 1, taken), added)
            == Keep(items, 1, |items| - 1, taken + Elements(added))
  {
    if |added| == 0 {
      assert taken + Elements(added) == taken;
    } else {
      var i := added[0];
      forall j | 1 <= j < |items| - 1 && j != i
        ensures items[j].key != items[i].key
      {
        if j < i { assert items[j].key != items[i].key; } else { assert items[i].key != items[j].key; }
      }
      RemoveFirstKeyKeep(items, 1, |items| - 1, taken, i);
      assert Descending(added[1..]);
      RemoveAddedKeep(items, taken + {i}, added[1..]);
      assert taken + {i} + Elements(added[1..]) == taken + Elements(added) by {
        assert Elements(added) == {i} + Elements(added[1..]);
      }
    }
  }

  lemma {:induction false} KeepAll(items: seq<Item>, lo: nat, hi: nat)
    requires lo <= hi <= |items|
    ensures Keep(items, lo, hi, {}) == items[lo..hi]
    decreases hi - lo
  {
    if lo < hi {
      KeepAll(items, lo + 1, hi);
    }
  }

  /** With distinct keys, hidden is exactly the middle items the loop did
      not add, in their original order */
  lemma FitHidden(items: seq<Item>, measured: seq<nat>, cw: nat)
    requires |items| > 2 && DistinctKeys(items)
    ensures var n := |items|;
            var w := Widths(measured, n);
            var r := Greedy(w, cw, n - 2, StartWidth(w));
            Fit(items, measured, cw).hidden == Keep(items, 1, n - 1, Elements(r.added))
  {
    var n := |items|;
    var w := Widths(measured, n);
    var r := Greedy(w, cw, n - 2, StartWidth(w));
    GreedyInRange(w, cw, n - 2, StartWidth(w));
    KeepAll(items, 1, n - 1);
    RemoveAddedKeep(items, {}, r.added);
    assert {} + Elements(r.added) == Elements(r.added);
  }

  // ----- Small lists and the ellipsis slot -----

  /** With at most two items everything is visible and nothing hidden */
  lemma SmallListsShowEverything(items: seq<Item>, mounted: bool, frame: Option<Frame>)
    requires |items| <= 2
    ensures Settled(items, mounted, frame) == Layout(items, [])
  {
  }

  /** The ellipsis menu is drawn before visible item 1 when anything is
      hidden: that slot always exists */
  lemma EllipsisSlotExists(items: seq<Item>, mounted: bool, frame: Option<Frame>)
    ensures var l := Settled(items, mounted, frame);
            |l.hidden| > 0 ==> |l.visible| >= 2
  {
    if mounted && |items| > 2 && frame.Some? {
      FitVisibleCount(items, frame.value.measured, frame.value.containerWidth);
    }
  }
}
