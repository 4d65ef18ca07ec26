/**
 The `Tabs` component: selection state, click and keyboard handling, and
 the per-tab ARIA state it renders.

 The component's one piece of state is `selectedId`. Its props are the
 item list, an optional `activeId`, and whether an `onChange` callback is
 present. Each handler is a function from the props and `selectedId` to a
 `Reaction`: the next `selectedId` plus the effects the handler performs.

 Two props decide the mode, independently: whether a handler writes
 `selectedId` or calls `onChange` depends only on `onChange` being
 present, and the tab shown depends only on `activeId` being present.
 Keyboard navigation picks its target by index alone; a disabled tab
 can be the target. Only the handlers of a disabled tab itself are
 switched off.
 */
module Tabs {
  import opened Js

  /** A tab; its label text and panel content are opaque here. */
  datatype TabItem = TabItem(id: string, text: string, disabled: bool)

  datatype Props = Props(items: seq<TabItem>, activeId: Option<string>, hasOnChange: bool)

  /** What a handler does: the next `selectedId`, the id passed to
      `onChange` if it was called, the tab whose button `focus()` is
      called on, and whether the key event's default action was
      prevented. A disabled button ignores that call. */
  datatype Reaction = Reaction(
    selected: Option<string>,
    changeCalled: Option<string>,
    focused: Option<string>,
    preventDefault: bool)

  datatype TabView = TabView(
    domId: string,
    controls: string,
    ariaSelected: bool,
    tabIndex: int,
    disabled: bool)

  datatype PanelView = PanelView(domId: string, labelledBy: string, hidden: bool)

  datatype View = View(tabs: seq<TabView>, panels: seq<PanelView>)

  const ArrowRight: string := "ArrowRight"
  const ArrowLeft: string := "ArrowLeft"
  const HomeKey: string := "Home"
  const EndKey: string := "End"

  /** A handler that did nothing. */
  function NoReaction(selected: Option<string>): Reaction {
    Reaction(selected, None, None, false)
  }

  predicate UniqueIds(items: seq<TabItem>) {
    forall i, j :: 0 <= i < |items| && 0 <= j < |items| && items[i].id == items[j].id ==> i == j
  }

  /** The initial `selectedId`: `activeId ?? items[0]?.id`. The first item
      is chosen whether or not it is disabled. */
  function InitialSelection(p: Props): (r: Option<string>)
    ensures p.activeId.Some? ==> r == p.activeId
    ensures p.activeId.None? && |p.items| > 0 ==> r == Some(p.items[0].id)
    ensures p.activeId.None? && |p.items| == 0 ==> r == None
  {
    OrElse(p.activeId, if |p.items| > 0 then Some(p.items[0].id) else None)
  }

  /** `handleTabClick(id)`: report to `onChange` when present, otherwise
      select the tab locally. */
  function SelectTab(p: Props, selected: Option<string>, id: string): (r: Reaction)
    ensures p.hasOnChange ==> r.selected == selected && r.changeCalled == Some(id)
    ensures !p.hasOnChange ==> r.selected == Some(id) && r.changeCalled == None
    ensures r.focused == None && !r.preventDefault
  {
    if p.hasOnChange then Reaction(selected, Some(id), None, false)
    else Reaction(Some(id), None, None, false)
  }

  /** A click on the tab at `index`; a disabled tab ignores it. */
  function Click(p: Props, selected: Option<string>, index: nat): (r: Reaction)
    requires index < |p.items|
    ensures p.items[index].disabled ==> r == NoReaction(selected)
    ensures !p.items[index].disabled ==> r == SelectTab(p, selected, p.items[index].id)
  {
    if p.items[index].disabled then NoReaction(selected)
    else SelectTab(p, selected, p.items[index].id)
  }

  /** The index a key moves to from `index` among `n` tabs, or `None` for
      any other key. The index is never negative, so JavaScript's `%`
      agrees with Dafny's here. */
  function NavTarget(key: string, index: nat, n: nat): (r: Option<nat>)
    requires index < n
    ensures key == ArrowRight ==> r == Some((index + 1) % n)
    ensures key == ArrowLeft ==> r == Some((index - 1 + n) % n)
    ensures key == HomeKey ==> r == Some(0)
    ensures key == EndKey ==> r == Some(n - 1)
    ensures r.None? <==> key !in {ArrowRight, ArrowLeft, HomeKey, EndKey}
    ensures r.Some? ==> r.value < n
  {
    if key == ArrowRight then Some((index + 1) % n)
    else if key == ArrowLeft then Some((index - 1 + n) % n)
    else if key == HomeKey then Some(0)
    else if key == EndKey then Some(n - 1)
    else None
  }

  /** A key press on the tab at `index`: a disabled tab ignores it, an
      unhandled key is left alone, and a navigation key prevents the
      default action, selects the target tab as a click would (whether or
      not the target is disabled) and requests focus on the target's
      button. */
  function KeyDown(p: Props, selected: Option<string>, index: nat, key: string): (r: Reaction)
    requires index < |p.items|
    ensures p.items[index].disabled ==> r == NoReaction(selected)
    ensures NavTarget(key, index, |p.items|).None? ==> r == NoReaction(selected)
    ensures !p.items[index].disabled && NavTarget(key, index, |p.items|).Some? ==>
      var target := p.items[NavTarget(key, index, |p.items|).value].id;
      && r.preventDefault
      && r.focused == Some(target)
      && r.selected == SelectTab(p, selected, target).selected
      && r.changeCalled == SelectTab(p, selected, target).changeCalled
  {
    if p.items[index].disabled then NoReaction(selected)
    else
      match NavTarget(key, index, |p.items|)
      case None => NoReaction(selected)
      case Some(j) =>
        var newId := p.items[j].id;
        var click := SelectTab(p, selected, newId);
        Reaction(click.selected, click.changeCalled, Some(newId), true)
  }

  /** The effect that follows `activeId`: a defined `activeId` overwrites
      `selectedId`; an undefined one leaves it. */
  function SyncActive(p: Props, selected: Option<string>): (r: Option<string>)
    ensures p.activeId.Some? ==> r == p.activeId
    ensures p.activeId.None? ==> r == selected
  {
    if p.activeId.Some? then p.activeId else selected
  }

  /** The tab shown: `activeId ?? selectedId`. */
  function CurrentId(p: Props, selected: Option<string>): Option<string> {
    OrElse(p.activeId, selected)
  }

  function RenderTab(item: TabItem, current: Option<string>): TabView {
    var isCurrent := current == Some(item.id);
    TabView("tab-" + item.id, "panel-" + item.id, isCurrent,
            if isCurrent then 0 else -1, item.disabled)
  }

  function RenderPanel(item: TabItem, current: Option<string>): PanelView {
    PanelView("panel-" + item.id, "tab-" + item.id, current != Some(item.id))
  }

  /** The rendered tab list and panels; nothing for an empty item list. */
  function Render(p: Props, selected: Option<string>): (r: Option<View>)
    ensures r.None? <==> |p.items| == 0
    ensures r.Some? ==>
      && |r.value.tabs| == |p.items|
      && |r.value.panels| == |p.items|
      && forall i :: 0 <= i < |p.items| ==>
        var current := CurrentId(p, selected);
        && r.value.tabs[i].ariaSelected == (current == Some(p.items[i].id))
        && r.value.tabs[i].tabIndex == (if current == Some(p.items[i].id) then 0 else -1)
        && r.value.tabs[i].disabled == p.items[i].disabled
        && r.value.panels[i].hidden == (current != Some(p.items[i].id))
        && r.value.tabs[i].controls == r.value.panels[i].domId
        && r.value.panels[i].labelledBy == r.value.tabs[i].domId
  {
    if |p.items| == 0 then None
    else
      var current := CurrentId(p, selected);
      Some(View(seq(|p.items|, i requires 0 <= i < |p.items| => RenderTab(p.items[i], current)),
                seq(|p.items|, i requires 0 <= i < |p.items| => RenderPanel(p.items[i], current))))
  }

  // ---------------------------------------------------------------------
  // Properties

  /** With unique ids, when the shown id is the id of tab `k`, tab `k` is
      the only tab with `aria-selected` and `tabIndex` 0, and its panel is
      the only one not hidden. */
  lemma ExactlyOneTabShown(p: Props, selected: Option<string>, k: nat)
    requires UniqueIds(p.items)
    requires k < |p.items|
    requires CurrentId(p, selected) == Some(p.items[k].id)
    ensures Render(p, selected).Some?
    ensures var v := Render(p, selected).value;
      forall i :: 0 <= i < |p.items| ==>
        && (v.tabs[i].ariaSelected <==> i == k)
        && (v.tabs[i].tabIndex == 0 <==> i == k)
        && (v.tabs[i].tabIndex == -1 <==> i != k)
        && (v.panels[i].hidden <==> i != k)
  {
  }

  /** When the shown id matches no tab, no tab is selected and every panel
      is hidden. */
  lemma NoTabShown(p: Props, selected: Option<string>)
    requires |p.items| > 0
    requires forall i :: 0 <= i < |p.items| ==> CurrentId(p, selected) != Some(p.items[i].id)
    ensures var v := Render(p, selected).value;
      forall i :: 0 <= i < |p.items| ==> !v.tabs[i].ariaSelected && v.panels[i].hidden
  {
  }

  /** With no `activeId`, the first tab is shown after mounting, even when
      it is disabled. */
  lemma FirstTabShownInitially(p: Props)
    requires p.activeId.None? && |p.items| > 0
    ensures CurrentId(p, InitialSelection(p)) == Some(p.items[0].id)
  {
  }

  /** Without `onChange` and `activeId`, clicking an enabled tab shows it. */
  lemma UncontrolledClickShowsTab(p: Props, selected: Option<string>, k: nat)
    requires !p.hasOnChange && p.activeId.None?
    requires UniqueIds(p.items)
    requires k < |p.items| && !p.items[k].disabled
    ensures var v := Render(p, Click(p, selected, k).selected).value;
      forall i :: 0 <= i < |p.items| ==> (v.tabs[i].ariaSelected <==> i == k)
  {
  }

  /** With `onChange`, a click or key press only reports the id: the state
      and therefore the shown tab stay as they are until the owner passes
      a new `activeId`, after which that id is shown. */
  lemma ControlledSelectionWaitsForOwner(p: Props, selected: Option<string>, index: nat, key: string, newActive: string)
    requires p.hasOnChange
    requires index < |p.items|
    ensures Click(p, selected, index).selected == selected
    ensures KeyDown(p, selected, index, key).selected == selected
    ensures !p.items[index].disabled ==> Click(p, selected, index).changeCalled == Some(p.items[index].id)
    ensures var p' := p.(activeId := Some(newActive));
      CurrentId(p', SyncActive(p', selected)) == Some(newActive)
  {
  }

  /** While `activeId` is defined, no click or key press changes the shown
      tab, with or without `onChange`. */
  lemma ActiveIdPinsShownTab(p: Props, selected: Option<string>, index: nat, key: string)
    requires p.activeId.Some?
    requires index < |p.items|
    ensures CurrentId(p, Click(p, selected, index).selected) == p.activeId
    ensures CurrentId(p, KeyDown(p, selected, index, key).selected) == p.activeId
  {
  }

  /** ArrowLeft undoes ArrowRight. */
  lemma ArrowLeftUndoesArrowRight(index: nat, n: nat)
    requires index < n
    ensures var j := NavTarget(ArrowRight, index, n).value;
      NavTarget(ArrowLeft, j, n) == Some(index)
  {
    if index + 1 < n {
      ModUnique(index + 1, n, 0, index + 1);
      ModUnique(index + n, n, 1, index);
    } else {
      ModUnique(n, n, 1, 0);
      ModUnique(n - 1, n, 0, n - 1);
    }
  }

  /** ArrowRight pressed `k` times from `index`. */
  function RightTimes(index: nat, n: nat, k: nat): (r: nat)
    requires index < n
    ensures r < n
  {
    if k == 0 then index else NavTarget(ArrowRight, RightTimes(index, n, k - 1), n).value
  }

  /** Taking the successor commutes with reducing modulo `n`. */
  lemma {:induction false} ModSuccessor(a: nat, n: nat)
    requires n > 0
    ensures ((a % n) + 1) % n == (a + 1) % n
    decreases a
  {
    if a >= n {
      ModSuccessor(a - n, n);
      ModShift(a - n, n);
      ModShift(a + 1 - n, n);
    }
  }

  /** Adding `n` does not change the remainder modulo `n`. */
  lemma ModShift(a: nat, n: nat)
    requires n > 0
    ensures (a + n) % n == a % n
  {
    var q, r := a / n, a % n;
    assert a == q * n + r;
    assert a + n == (q + 1) * n + r;
    ModUnique(a + n, n, q + 1, r);
  }

  /** The remainder is the unique `r` in `[0, n)` with `a == q * n + r`. */
  lemma ModUnique(a: nat, n: nat, q: int, r: int)
    requires n > 0 && 0 <= r < n && a == q * n + r
    ensures a % n == r
  {
    var q', r' := a / n, a % n;
    assert a == q' * n + r';
    assert (q - q') * n == r' - r by {
      assert (q - q') * n == q * n - q' * n;
    }
    assert (q' - q) * n == r - r' by {
      assert (q' - q) * n == q' * n - q * n;
    }
    if q > q' {
      MultipleAtLeast(q - q', n);
      assert false;
    }
    if q < q' {
      MultipleAtLeast(q' - q, n);
      assert false;
    }
  }

  lemma {:induction false} MultipleAtLeast(d: int, n: nat)
    requires d >= 1
    ensures d * n >= n
    decreases d
  {
    if d > 1 {
      MultipleAtLeast(d - 1, n);
      assert d * n == (d - 1) * n + n;
    }
  }

  /** Pressing ArrowRight `k` times advances `k` places, wrapping around;
      so `n` presses come back to the start. */
  lemma {:induction false} RightTimesAdvances(index: nat, n: nat, k: nat)
    requires index < n
    ensures RightTimes(index, n, k) == (index + k) % n
  {
    if k > 0 {
      RightTimesAdvances(index, n, k - 1);
      ModSuccessor(index + k - 1, n);
    }
  }

  lemma RightCycleReturns(index: nat, n: nat)
    requires index < n
    ensures RightTimes(index, n, n) == index
  {
    RightTimesAdvances(index, n, n);
    ModShift(index, n);
    ModUnique(index, n, 0, index);
  }

  /** The keyboard target does not depend on which tabs are disabled,
      except the originating one: two item lists that differ only in the
      disabled flags of other tabs react identically. */
  lemma KeyTargetIgnoresDisabled(p: Props, p2: Props, selected: Option<string>, index: nat, key: string)
    requires |p.items| == |p2.items| && index < |p.items|
    requires p.activeId == p2.activeId && p.hasOnChange == p2.hasOnChange
    requires forall i :: 0 <= i < |p.items| ==> p.items[i].id == p2.items[i].id
    requires p.items[index].disabled == p2.items[index].disabled
    ensures KeyDown(p, selected, index, key) == KeyDown(p2, selected, index, key)
  {
  }

  /** The items of the component's tests: "one", "two", and a disabled
      "three". */
  function SampleItems(): seq<TabItem> {
    [TabItem("one", "One", false), TabItem("two", "Two", false), TabItem("three", "Three", true)]
  }

  /** ArrowRight from "two" selects the disabled "three", and ArrowRight
      from "three" is ignored because "three" is disabled. */
  lemma ArrowRightReachesDisabledTab()
    ensures var p := Props(SampleItems(), None, false);
      && KeyDown(p, Some("two"), 1, ArrowRight) == Reaction(Some("three"), None, Some("three"), true)
      && KeyDown(p, Some("three"), 2, ArrowRight) == NoReaction(Some("three"))
  {
  }
}
