/**
 * The video playlist widget: a fixed list of playlist items, each carrying an
 * `is-current` flag, one active video slot that holds the template content of the
 * item loaded last, a `data-clipped` flag, and the `disabled` state of the
 * scroll-backward and scroll-forward buttons.
 */
module VideoPlaylist {
  import opened Wrappers

  // ---------------------------------------------------------------------------
  // The current item

  /** The flags `setState(index)` leaves on n items: set on the item at index, if any, cleared on every other. */
  function Marked(n: nat, index: int): (r: seq<bool>)
  {
    seq(n, k => k == index)
  }

  /** Positions of the items that hold `is-current`. */
  function CurrentSet(flags: seq<bool>): set<int>
  {
    set k | 0 <= k < |flags| && flags[k]
  }

  predicate AtMostOneCurrent(flags: seq<bool>)
  {
    forall j, k :: 0 <= j < k < |flags| ==> !(flags[j] && flags[k])
  }

  /** After `setState(index)` exactly the item at index is current, or none when index is outside the list (-1 from `indexOf`). */
  lemma MarkedCurrentSet(n: nat, index: int)
    ensures CurrentSet(Marked(n, index)) == if 0 <= index < n then {index} else {}
    ensures AtMostOneCurrent(Marked(n, index))
  {
  }

  /**
   * `findIndex` over the flags: the first current item, or -1 when none is current.
   */
  function FirstCurrent(flags: seq<bool>): (r: int)
    ensures -1 <= r < |flags|
    ensures r == -1 <==> forall k :: 0 <= k < |flags| ==> !flags[k]
    ensures 0 <= r ==> flags[r] && forall k :: 0 <= k < r ==> !flags[k]
    decreases |flags|
  {
    if |flags| == 0 then -1
    else if flags[0] then 0
    else
      var r := FirstCurrent(flags[1..]);
      if r == -1 then -1 else r + 1
  }

  /**
   * The item the `ended` handler loads: the one after the first current item, or the
   * first item when none is current; nothing when the current item is the last one or
   * the list is empty.
   */
  function EndedTarget(flags: seq<bool>): (r: Option<nat>)
    ensures r.Some? ==> r.value < |flags|
  {
    var c := FirstCurrent(flags);
    if c < |flags| - 1 then Some(c + 1) else None
  }

  /** While item i < n - 1 is the current one, `ended` advances to item i + 1. */
  lemma EndedAdvances(n: nat, i: int)
    requires 0 <= i < n - 1
    ensures EndedTarget(Marked(n, i)) == Some(i + 1)
  {
    assert Marked(n, i)[i];
  }

  /** On the last item `ended` loads nothing: there is no wrap-around to the first item. */
  lemma EndedStopsAtLast(n: nat)
    requires 1 <= n
    ensures EndedTarget(Marked(n, n - 1)) == None
  {
    assert Marked(n, n - 1)[n - 1];
  }

  /** With no current item `ended` loads the first item of a non-empty list, and nothing from an empty one. */
  lemma EndedWithoutCurrent(flags: seq<bool>)
    requires forall k :: 0 <= k < |flags| ==> !flags[k]
    ensures EndedTarget(flags) == if |flags| == 0 then None else Some(0)
  {
  }

  /** Every item except the first can become current by `ended` from its predecessor, and only from it. */
  lemma EndedTargetFromPredecessor(flags: seq<bool>, k: nat)
    requires AtMostOneCurrent(flags)
    requires 1 <= k
    ensures EndedTarget(flags) == Some(k) <==> k < |flags| && flags[k - 1]
  {
  }

  // ---------------------------------------------------------------------------
  // Scroll edges

  /** Scroll offsets and extents of the playlist items container, in whole pixels. */
  datatype ScrollMetrics = ScrollMetrics(
    scrollLeft: int, scrollTop: int,
    scrollWidth: int, scrollHeight: int,
    clientWidth: int, clientHeight: int)

  function Max(a: int, b: int): int
  {
    if a < b then b else a
  }

  /** How far the container is scrolled from its start, on whichever axis is further. */
  function ScrollStart(m: ScrollMetrics): int
  {
    Max(m.scrollLeft, m.scrollTop)
  }

  /** How far the container can still scroll towards its end, on whichever axis is further. */
  function ScrollEnd(m: ScrollMetrics): int
  {
    Max(m.scrollWidth - m.scrollLeft - m.clientWidth, m.scrollHeight - m.scrollTop - m.clientHeight)
  }

  predicate BackwardDisabled(m: ScrollMetrics)
  {
    ScrollStart(m) == 0
  }

  predicate ForwardDisabled(m: ScrollMetrics)
  {
    ScrollEnd(m) == 0
  }

  /** Metrics a browser reports for a left-to-right container: each offset lies between 0 and its maximum. */
  predicate InRange(m: ScrollMetrics)
  {
    && 0 <= m.scrollLeft <= m.scrollWidth - m.clientWidth
    && 0 <= m.scrollTop <= m.scrollHeight - m.clientHeight
  }

  /** Backward scrolling is disabled exactly when the container sits at its start on both axes. */
  lemma BackwardDisabledAtStart(m: ScrollMetrics)
    requires InRange(m)
    ensures BackwardDisabled(m) <==> m.scrollLeft == 0 && m.scrollTop == 0
  {
  }

  /** Forward scrolling is disabled exactly when the container sits at its end on both axes. */
  lemma ForwardDisabledAtEnd(m: ScrollMetrics)
    requires InRange(m)
    ensures ForwardDisabled(m) <==>
      m.scrollLeft == m.scrollWidth - m.clientWidth && m.scrollTop == m.scrollHeight - m.clientHeight
  {
  }

  datatype Direction = Backward | Forward

  predicate Disabled(dir: Direction, m: ScrollMetrics)
  {
    if dir == Backward then BackwardDisabled(m) else ForwardDisabled(m)
  }

  // ---------------------------------------------------------------------------
  // The widget

  class VideoPlaylistModule {
    /** `is-current` of each playlist item, in document order; the list is snapshotted once. */
    const items: array<bool>
    /** The item whose template content fills the video slot; None while it holds the server-rendered player. */
    var slot: Option<nat>
    /** The `data-clipped` attribute. */
    var clipped: bool
    /** `disabled` of each `button[data-scroll-backward]`. */
    const backwardButtons: array<bool>
    /** `disabled` of each `button[data-scroll-forward]`. */
    const forwardButtons: array<bool>
    /** The container metrics the buttons were last computed from. */
    ghost var lastMetrics: ScrollMetrics

    ghost predicate Distinct()
    {
      items != backwardButtons && items != forwardButtons && backwardButtons != forwardButtons
    }

    /** Every button of one direction is disabled exactly when the container was at that edge. */
    ghost predicate ButtonsReflect(m: ScrollMetrics)
      reads backwardButtons, forwardButtons
    {
      && (forall b :: 0 <= b < backwardButtons.Length ==> backwardButtons[b] == BackwardDisabled(m))
      && (forall b :: 0 <= b < forwardButtons.Length ==> forwardButtons[b] == ForwardDisabled(m))
    }

    ghost predicate Valid()
      reads this, backwardButtons, forwardButtons
    {
      Distinct() && ButtonsReflect(lastMetrics)
    }

    /** The item loaded into the slot is the single current item. */
    ghost predicate SlotShowsCurrent()
      reads this, items
    {
      slot.Some? ==> slot.value < items.Length && items[..] == Marked(items.Length, slot.value)
    }

    function Buttons(dir: Direction): array<bool>
    {
      if dir == Backward then backwardButtons else forwardButtons
    }

    /** `connectedCallback`: snapshot the items and compute the initial scroll state. */
    constructor (flags: seq<bool>, backwardCount: nat, forwardCount: nat, clippedAttribute: bool, m: ScrollMetrics)
      ensures Valid() && lastMetrics == m
      ensures fresh(items) && fresh(backwardButtons) && fresh(forwardButtons)
      ensures items[..] == flags && slot == None && clipped == clippedAttribute
      ensures backwardButtons.Length == backwardCount && forwardButtons.Length == forwardCount
    {
      items := new bool[|flags|](k requires 0 <= k < |flags| => flags[k]);
      backwardButtons := new bool[backwardCount];
      forwardButtons := new bool[forwardCount];
      slot := None;
      clipped := clippedAttribute;
      new;
      SetScrollState(m);
    }

    /** `setState(index)`: rewrite every item's flag so that only the item at index is current. */
    method SetState(index: int)
      requires Valid()
      modifies items
      ensures Valid()
      ensures items[..] == Marked(items.Length, index)
    {
      var i := 0;
      while i < items.Length
        invariant 0 <= i <= items.Length
        invariant forall k :: 0 <= k < i ==> items[k] == (k == index)
      {
        items[i] := false;
        if index == i {
          items[i] := true;
        }
        i := i + 1;
      }
    }

    /** `loadPlaylistItem`: put item k's template in the slot, then make k the current item. */
    method LoadPlaylistItem(k: nat)
      requires Valid()
      requires k < items.Length
      modifies this`slot, items
      ensures Valid()
      ensures slot == Some(k) && items[..] == Marked(items.Length, k)
      ensures SlotShowsCurrent() && AtMostOneCurrent(items[..])
    {
      slot := Some(k);
      SetState(k);
      MarkedCurrentSet(items.Length, k);
    }

    /** A click on item k loads it unless it is already current. */
    method ClickItem(k: nat)
      requires Valid()
      requires k < items.Length
      modifies this`slot, items
      ensures Valid()
      ensures old(items[k]) ==> slot == old(slot) && items[..] == old(items[..])
      ensures !old(items[k]) ==> slot == Some(k) && items[..] == Marked(items.Length, k)
      ensures old(SlotShowsCurrent()) ==> SlotShowsCurrent()
      ensures old(AtMostOneCurrent(items[..])) ==> AtMostOneCurrent(items[..])
    {
      if !items[k] {
        LoadPlaylistItem(k);
      }
    }

    /** The linear scan of the `ended` handler for the first current item; -1 when there is none. */
    method FindCurrent() returns (c: int)
      ensures c == FirstCurrent(items[..])
    {
      c := 0;
      while c < items.Length && !items[c]
        invariant 0 <= c <= items.Length
        invariant forall k :: 0 <= k < c ==> !items[k]
      {
        c := c + 1;
      }
      if c == items.Length {
        c := -1;
      }
    }

    /** The `ended` handler: load the item after the current one, if there is one. */
    method Ended()
      requires Valid()
      modifies this`slot, items
      ensures Valid()
      ensures match EndedTarget(old(items[..]))
        case Some(k) => slot == Some(k) && items[..] == Marked(items.Length, k)
        case None => slot == old(slot) && items[..] == old(items[..])
      ensures old(SlotShowsCurrent()) ==> SlotShowsCurrent()
      ensures old(AtMostOneCurrent(items[..])) ==> AtMostOneCurrent(items[..])
    {
      var c := FindCurrent();
      if c < items.Length - 1 {
        LoadPlaylistItem(c + 1);
      }
    }

    /** `setScrollState`, also the `scroll` handler: recompute every button's `disabled` from the metrics. */
    method SetScrollState(m: ScrollMetrics)
      requires Distinct()
      modifies backwardButtons, forwardButtons, this`lastMetrics
      ensures Valid() && lastMetrics == m
    {
      var start := ScrollStart(m);
      var end := ScrollEnd(m);
      var b := 0;
      while b < backwardButtons.Length
        invariant 0 <= b <= backwardButtons.Length
        invariant forall j :: 0 <= j < b ==> backwardButtons[j] == (start == 0)
      {
        backwardButtons[b] := start == 0;
        b := b + 1;
      }
      b := 0;
      while b < forwardButtons.Length
        invariant 0 <= b <= forwardButtons.Length
        invariant forall j :: 0 <= j < b ==> forwardButtons[j] == (end == 0)
        invariant forall j :: 0 <= j < backwardButtons.Length ==> backwardButtons[j] == (start == 0)
      {
        forwardButtons[b] := end == 0;
        b := b + 1;
      }
      lastMetrics := m;
    }

    /**
     * A click on scroll button b of direction dir: whether it asks the container to
     * scroll. A disabled button does not; an enabled one does, and it is enabled exactly
     * when the container was away from that edge at the last recomputation.
     */
    method ClickScrollButton(dir: Direction, b: nat) returns (scrolls: bool)
      requires Valid() && b < Buttons(dir).Length
      ensures scrolls == !Buttons(dir)[b]
      ensures scrolls <==> !Disabled(dir, lastMetrics)
    {
      scrolls := !Buttons(dir)[b];
    }

    /** The expand toggle: clear `data-clipped`; there is no way back. */
    method ToggleExpand()
      requires Valid()
      modifies this`clipped
      ensures Valid()
      ensures !clipped
    {
      clipped := false;
    }
  }

  /** A three-item playlist: a click on the second item, then `ended`, leaves the third item current. */
  method ThreeItemScenario()
  {
    var m := ScrollMetrics(0, 0, 300, 100, 100, 100);
    var p := new VideoPlaylistModule([false, false, false], 1, 1, true, m);
    p.ClickItem(1);
    assert p.slot == Some(1) && p.items[..] == [false, true, false];
    p.Ended();
    EndedAdvances(3, 1);
    assert p.slot == Some(2) && p.items[..] == [false, false, true];
    p.Ended();
    EndedStopsAtLast(3);
    assert p.slot == Some(2);
    var scrolls := p.ClickScrollButton(Backward, 0);
    assert !scrolls;
    scrolls := p.ClickScrollButton(Forward, 0);
    assert scrolls;
  }
}
