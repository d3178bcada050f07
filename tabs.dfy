/**
 * The tab list: which tab is displayed when the list of values changes
 * under the selection, the group choice shared between tab lists, the
 * arrow-key focus that wraps around, and which tab and child are active.
 *
 * A render reads the state as it was when the render began; the state
 * updates it asks for are applied after it, in order.
 */
module Tabs {
  import opened Wrappers

  const KeyLeft: int := 37
  const KeyRight: int := 39

  /** One tab: the text shown and the value that identifies it. */
  datatype TabValue = TabValue(caption: string, value: string)

  predicate HasValue(values: seq<TabValue>, v: string) {
    exists k :: 0 <= k < |values| && values[k].value == v
  }

  /** `values.findIndex(({ value }) => value === v)`. */
  function FirstIndexOf(values: seq<TabValue>, v: string): (i: int)
    ensures -1 <= i < |values|
    ensures i >= 0 ==> values[i].value == v && forall k :: 0 <= k < i ==> values[k].value != v
    ensures i == -1 <==> !HasValue(values, v)
  {
    if |values| == 0 then -1
    else if values[0].value == v then 0
    else
      var j := FirstIndexOf(values[1..], v);
      if j == -1 then
        assert forall k :: 1 <= k < |values| ==> values[k] == values[1..][k - 1];
        -1
      else j + 1
  }

  /** The index a render displays, and the value it selects anew, if any. */
  datatype TabDisplay = TabDisplay(index: int, newSelectedValue: Option<string>)

  /**
   * `getIndexToDisplay` as written. `None` is the TypeError thrown when the
   * list is empty (`values[-1].value`). When the selected value still
   * exists but the selected index is past the end of the list, the first
   * guard (`selectedIndex < values.length`) skips the search and the
   * out-of-range index is displayed.
   */
  function IndexToDisplayAsWritten(values: seq<TabValue>, selectedValue: string, selectedIndex: nat)
    : (r: Option<TabDisplay>)
    ensures r.None? <==> |values| == 0
    ensures selectedIndex < |values| && values[selectedIndex].value != selectedValue
            && HasValue(values, selectedValue) ==>
              r == Some(TabDisplay(FirstIndexOf(values, selectedValue), None))
    ensures !HasValue(values, selectedValue) && selectedIndex < |values| ==>
              r == Some(TabDisplay(selectedIndex, Some(values[selectedIndex].value)))
    ensures !HasValue(values, selectedValue) && selectedIndex >= |values| > 0 ==>
              r == Some(TabDisplay(|values| - 1, Some(values[|values| - 1].value)))
    ensures HasValue(values, selectedValue)
            && (selectedIndex >= |values| || values[selectedIndex].value == selectedValue) ==>
              r == Some(TabDisplay(selectedIndex, None))
  {
    var n := |values|;
    var found := FirstIndexOf(values, selectedValue);
    if selectedIndex < n && values[selectedIndex].value != selectedValue && found > -1 then
      Some(TabDisplay(found, None))
    else if found == -1 then
      if n > selectedIndex then Some(TabDisplay(selectedIndex, Some(values[selectedIndex].value)))
      else if n == 0 then None
      else Some(TabDisplay(n - 1, Some(values[n - 1].value)))
    else Some(TabDisplay(selectedIndex, None))
  }

  /**
   * The list shrank under a selection whose value survives at a lower
   * index: the index displayed as written is past the end, so no tab is
   * active (and the lazy rendering of the active child fails).
   */
  lemma AsWrittenDisplaysMissingTab(values: seq<TabValue>, selectedValue: string, selectedIndex: nat)
    requires HasValue(values, selectedValue) && selectedIndex >= |values|
    ensures var r := IndexToDisplayAsWritten(values, selectedValue, selectedIndex);
            r.Some? && r.value.index >= |values|
            && forall i :: 0 <= i < |values| ==> !TabAttributes(|values|, r.value.index)[i]
  {
  }

  /**
   * `getIndexToDisplay` with the search also run when the selected index
   * is past the end: the displayed index is always a tab of the list, and
   * that tab holds the value selected after the render.
   */
  function IndexToDisplay(values: seq<TabValue>, selectedValue: string, selectedIndex: nat)
    : (r: Option<TabDisplay>)
    ensures r.None? <==> |values| == 0
    ensures r.Some? ==>
              0 <= r.value.index < |values|
              && values[r.value.index].value == r.value.newSelectedValue.GetOr(selectedValue)
    ensures r.Some? && HasValue(values, selectedValue) ==>
              r.value.newSelectedValue.None?
              && r.value.index == (if selectedIndex < |values| && values[selectedIndex].value == selectedValue
                                   then selectedIndex else FirstIndexOf(values, selectedValue))
    ensures !HasValue(values, selectedValue) && selectedIndex < |values| ==>
              r == Some(TabDisplay(selectedIndex, Some(values[selectedIndex].value)))
    ensures !HasValue(values, selectedValue) && selectedIndex >= |values| > 0 ==>
              r == Some(TabDisplay(|values| - 1, Some(values[|values| - 1].value)))
  {
    var n := |values|;
    var found := FirstIndexOf(values, selectedValue);
    if (selectedIndex >= n || values[selectedIndex].value != selectedValue) && found > -1 then
      Some(TabDisplay(found, None))
    else if found == -1 then
      if n > selectedIndex then Some(TabDisplay(selectedIndex, Some(values[selectedIndex].value)))
      else if n == 0 then None
      else Some(TabDisplay(n - 1, Some(values[n - 1].value)))
    else Some(TabDisplay(selectedIndex, None))
  }

  /** Whenever the index displayed as written is a tab of the list, the corrected rule agrees. */
  lemma CorrectionOnlyAffectsMissingTab(values: seq<TabValue>, selectedValue: string, selectedIndex: nat)
    requires |values| > 0
    ensures var w := IndexToDisplayAsWritten(values, selectedValue, selectedIndex);
            w.value.index < |values| ==> w == IndexToDisplay(values, selectedValue, selectedIndex)
  {
  }

  /**
   * The display rule alone, with no group choice to apply: after the
   * updates of one render, a render of the same list displays the same
   * tab and asks for no update. `RenderSettles` covers the group choice.
   */
  lemma DisplaySettles(values: seq<TabValue>, selectedValue: string, selectedIndex: nat)
    requires |values| > 0
    ensures var d := IndexToDisplay(values, selectedValue, selectedIndex).value;
            var value' := d.newSelectedValue.GetOr(selectedValue);
            d.index >= 0
            && IndexToDisplay(values, value', d.index) == Some(TabDisplay(d.index, None))
  {
    var d := IndexToDisplay(values, selectedValue, selectedIndex).value;
    var value' := d.newSelectedValue.GetOr(selectedValue);
    assert HasValue(values, value') by {
      assert values[d.index].value == value';
    }
  }

  /**
   * The group choice: with a group, a stored choice that is not the
   * selected value and names a tab of the list becomes the selection, at
   * the first index that holds it.
   */
  function GroupChoiceSync(groupId: Option<string>, choices: map<string, string>,
                           values: seq<TabValue>, selectedValue: string)
    : (r: Option<(string, nat)>)
    ensures r.Some? <==>
              groupId.Some? && groupId.value in choices && choices[groupId.value] != selectedValue
              && HasValue(values, choices[groupId.value])
    ensures r.Some? ==>
              var (v, i) := r.value;
              v == choices[groupId.value] && i < |values| && values[i].value == v
              && forall k :: 0 <= k < i ==> values[k].value != v
  {
    if groupId.Some? && groupId.value in choices then
      var choice := choices[groupId.value];
      if choice != selectedValue && HasValue(values, choice) then
        Some((choice, FirstIndexOf(values, choice) as nat))
      else None
    else None
  }

  /**
   * The selection after one render of a non-empty list: the value selected
   * anew by the display rule, else the group choice, else the old value;
   * the displayed index when it moved, else the group choice's index, else
   * the old index.
   */
  function NextSelection(values: seq<TabValue>, groupId: Option<string>, choices: map<string, string>,
                         selectedValue: string, selectedIndex: nat)
    : (r: (string, nat))
    requires |values| > 0
    ensures HasValue(values, r.0)
    ensures var d := IndexToDisplay(values, selectedValue, selectedIndex).value;
            var sync := GroupChoiceSync(groupId, choices, values, selectedValue);
            (sync.None? ==> r == (d.newSelectedValue.GetOr(selectedValue), d.index))
            && (sync.Some? && d.newSelectedValue.None? ==> r.0 == sync.value.0)
            && (sync.Some? && d == TabDisplay(selectedIndex, None) ==> r == sync.value)
            && (d.newSelectedValue.Some? ==> r.0 == d.newSelectedValue.value)
            && (d.index != selectedIndex ==> r.1 == d.index)
  {
    var d := IndexToDisplay(values, selectedValue, selectedIndex).value;
    var sync := GroupChoiceSync(groupId, choices, values, selectedValue);
    var value := if d.newSelectedValue.Some? then d.newSelectedValue.value
                 else if sync.Some? then sync.value.0 else selectedValue;
    var index := if d.index != selectedIndex then d.index
                 else if sync.Some? then sync.value.1 else selectedIndex;
    assert values[d.index].value == d.newSelectedValue.GetOr(selectedValue);
    (value, index)
  }

  /** A render of this selection displays its index, asks for no update and finds no group choice to apply. */
  predicate Settled(values: seq<TabValue>, groupId: Option<string>, choices: map<string, string>,
                    selectedValue: string, selectedIndex: nat)
  {
    GroupChoiceSync(groupId, choices, values, selectedValue).None?
    && IndexToDisplay(values, selectedValue, selectedIndex) == Some(TabDisplay(selectedIndex, None))
  }

  /** A settled selection is a fixed point of rendering. */
  lemma SettledIsFixed(values: seq<TabValue>, groupId: Option<string>, choices: map<string, string>,
                       selectedValue: string, selectedIndex: nat)
    requires Settled(values, groupId, choices, selectedValue, selectedIndex)
    ensures NextSelection(values, groupId, choices, selectedValue, selectedIndex) == (selectedValue, selectedIndex)
  {
  }

  /** Without a group choice to apply, one render reaches a settled selection. */
  lemma {:induction false} SettlesWithoutSync(values: seq<TabValue>, groupId: Option<string>, choices: map<string, string>,
                                              selectedValue: string, selectedIndex: nat)
    requires |values| > 0
    requires GroupChoiceSync(groupId, choices, values, selectedValue).None?
    ensures var (v, i) := NextSelection(values, groupId, choices, selectedValue, selectedIndex);
            Settled(values, groupId, choices, v, i)
  {
    var (v, i) := NextSelection(values, groupId, choices, selectedValue, selectedIndex);
    DisplaySettles(values, selectedValue, selectedIndex);
    if groupId.Some? && groupId.value in choices && HasValue(values, choices[groupId.value]) {
      assert choices[groupId.value] == selectedValue;
      assert v == selectedValue;
    }
  }

  /**
   * Renders of the same list settle: whatever the selection and the group
   * choice, the selection after three renders is displayed unchanged and
   * asks for no update, at every later render.
   */
  lemma {:induction false} RenderSettles(values: seq<TabValue>, groupId: Option<string>, choices: map<string, string>,
                                         selectedValue: string, selectedIndex: nat)
    requires |values| > 0
    ensures var s1 := NextSelection(values, groupId, choices, selectedValue, selectedIndex);
            var s2 := NextSelection(values, groupId, choices, s1.0, s1.1);
            var s3 := NextSelection(values, groupId, choices, s2.0, s2.1);
            Settled(values, groupId, choices, s3.0, s3.1)
  {
    var s1 := NextSelection(values, groupId, choices, selectedValue, selectedIndex);
    var s2 := NextSelection(values, groupId, choices, s1.0, s1.1);
    var s3 := NextSelection(values, groupId, choices, s2.0, s2.1);
    if GroupChoiceSync(groupId, choices, values, s1.0).None? {
      SettlesWithoutSync(values, groupId, choices, s1.0, s1.1);
      SettledIsFixed(values, groupId, choices, s2.0, s2.1);
    } else {
      assert IndexToDisplay(values, s1.0, s1.1).value.newSelectedValue.None?;
      assert GroupChoiceSync(groupId, choices, values, s2.0).None?;
      SettlesWithoutSync(values, groupId, choices, s2.0, s2.1);
    }
  }

  /**
   * Three renders are needed: a selection missing from the list, with a
   * group choice elsewhere in it, is still moving after two.
   */
  lemma ThirdRenderNeeded()
    ensures var values := [TabValue("A", "a"), TabValue("B", "b"), TabValue("C", "c")];
            var choices := map["g" := "c"];
            var s1 := NextSelection(values, Some("g"), choices, "x", 0);
            var s2 := NextSelection(values, Some("g"), choices, s1.0, s1.1);
            !Settled(values, Some("g"), choices, s2.0, s2.1)
  {
    var values := [TabValue("A", "a"), TabValue("B", "b"), TabValue("C", "c")];
    var choices := map["g" := "c"];
    assert HasValue(values, "c") && HasValue(values, "a") by {
      assert values[2].value == "c" && values[0].value == "a";
    }
    assert !HasValue(values, "x");
    assert FirstIndexOf(values, "c") == 2;
    assert FirstIndexOf(values, "a") == 0;
    var s1 := NextSelection(values, Some("g"), choices, "x", 0);
    assert s1 == ("a", 2);
    var s2 := NextSelection(values, Some("g"), choices, s1.0, s1.1);
    assert s2 == ("c", 0);
  }

  /**
   * `handleKeydown`: the right arrow focuses the next tab, the first after
   * the last; the left arrow the previous one, the last before the first;
   * any other key focuses nothing. `current` is the `indexOf` of the
   * event's target among the tabs (-1 when absent).
   */
  function FocusAfterKey(keyCode: int, current: int, n: nat): (r: Option<nat>)
    requires -1 <= current < n
    ensures r.Some? <==> n > 0 && (keyCode == KeyRight || keyCode == KeyLeft)
    ensures r.Some? ==> r.value < n
    ensures r.Some? && keyCode == KeyRight ==> r.value == (current + 1) % n
    ensures r.Some? && keyCode == KeyLeft && current >= 0 ==> r.value == (current + n - 1) % n
    ensures r.Some? && keyCode == KeyLeft && current == -1 ==> r.value == n - 1
  {
    if n == 0 then None
    else
      WrapAround(current, n);
      if keyCode == KeyRight then
        var next := current + 1;
        Some(if next < n then next else 0)
      else if keyCode == KeyLeft then
        var prev := current - 1;
        Some(if 0 <= prev then prev else n - 1)
      else None
  }

  /** Stepping one place forward or back, modulo the number of tabs. */
  lemma WrapAround(current: int, n: nat)
    requires -1 <= current < n && n > 0
    ensures current + 1 < n ==> (current + 1) % n == current + 1
    ensures current + 1 == n ==> (current + 1) % n == 0
    ensures 1 <= current ==> (current + n - 1) % n == current - 1
    ensures current == 0 ==> (current + n - 1) % n == n - 1
  {
    if current + 1 == n {
      ModBelow(n, n);
    }
    if 1 <= current {
      ModBelow(current + n - 1, n);
    }
  }

  /** Euclidean remainder of a number between `n` and `2n`. */
  lemma ModBelow(a: int, n: int)
    requires 0 < n <= a < 2 * n
    ensures a % n == a - n
  {
    assert (a - n) % n == a - n;
  }

  /** The left arrow undoes the right arrow, and the other way round. */
  lemma ArrowsAreInverse(current: nat, n: nat)
    requires current < n
    ensures FocusAfterKey(KeyLeft, FocusAfterKey(KeyRight, current, n).value, n) == Some(current)
    ensures FocusAfterKey(KeyRight, FocusAfterKey(KeyLeft, current, n).value, n) == Some(current)
  {
  }

  /** `aria-selected` (and `tabIndex` 0) of each of the `n` tabs. */
  function TabAttributes(n: nat, display: int): (selected: seq<bool>)
    ensures |selected| == n
    ensures forall i, j :: 0 <= i < n && 0 <= j < n && selected[i] && selected[j] ==> i == j
    ensures (exists i :: 0 <= i < n && selected[i]) <==> 0 <= display < n
    ensures 0 <= display < n ==> selected[display]
  {
    var selected := seq(n, i => i == display);
    assert 0 <= display < n ==> selected[display];
    selected
  }

  /** A rendered child: its position and whether it is hidden. */
  datatype ChildView = ChildView(index: nat, hidden: bool)

  /**
   * The children rendered: in lazy mode only the displayed one (`None`
   * when there is none, as cloning `undefined` throws); otherwise all of
   * them, every one but the displayed one hidden.
   */
  function RenderedChildren(lazy: bool, nChildren: nat, display: int): (r: Option<seq<ChildView>>)
    ensures lazy ==> (r.Some? <==> 0 <= display < nChildren)
    ensures lazy && r.Some? ==> r.value == [ChildView(display, false)]
    ensures !lazy ==>
              r.Some? && |r.value| == nChildren
              && forall i :: 0 <= i < nChildren ==>
                   r.value[i].index == i && (r.value[i].hidden <==> i != display)
  {
    if lazy then
      if 0 <= display < nChildren then Some([ChildView(display, false)]) else None
    else Some(seq(nChildren, i requires 0 <= i < nChildren => ChildView(i, i != display)))
  }

  /** The state of one tab list. */
  class TabsState {
    var selectedValue: string
    var selectedIndex: nat

    /**
     * The initial state: the default value and the index of the first
     * child whose value it is (the source throws when there is none).
     */
    constructor (defaultValue: string, childValues: seq<string>)
      requires defaultValue in childValues
      ensures selectedValue == defaultValue
      ensures selectedIndex < |childValues| && childValues[selectedIndex] == defaultValue
      ensures forall k :: 0 <= k < selectedIndex ==> childValues[k] != defaultValue
    {
      selectedValue := defaultValue;
      var i := 0;
      while childValues[i] != defaultValue
        invariant 0 <= i < |childValues|
        invariant defaultValue in childValues[i..]
        invariant forall k :: 0 <= k < i ==> childValues[k] != defaultValue
        decreases |childValues| - i
      {
        i := i + 1;
      }
      selectedIndex := i;
    }

    /**
     * One render with the corrected display rule. The default value's
     * index is looked up again first, and a render whose children no
     * longer hold the default value throws, as does one over an empty
     * list; such a render returns `None` and leaves the state as it was.
     * Otherwise the group choice and the display decision both read the
     * state as the render found it, and the updates they ask for apply in
     * order, as `NextSelection` states.
     */
    method Render(values: seq<TabValue>, defaultValue: string, childValues: seq<string>,
                  groupId: Option<string>, choices: map<string, string>)
      returns (display: Option<int>)
      modifies this
      ensures var d := IndexToDisplay(values, old(selectedValue), old(selectedIndex));
              display == (if defaultValue in childValues && d.Some? then Some(d.value.index) else None)
              && (display.None? ==> selectedValue == old(selectedValue) && selectedIndex == old(selectedIndex))
              && (display.Some? ==>
                    (selectedValue, selectedIndex)
                    == NextSelection(values, groupId, choices, old(selectedValue), old(selectedIndex)))
    {
      if defaultValue !in childValues {
        return None;
      }
      var d := IndexToDisplay(values, selectedValue, selectedIndex);
      if d.None? {
        return None;
      }
      var index := d.value.index;
      var oldIndex := selectedIndex;
      var sync := GroupChoiceSync(groupId, choices, values, selectedValue);
      if sync.Some? {
        selectedValue := sync.value.0;
        selectedIndex := sync.value.1;
      }
      if d.value.newSelectedValue.Some? {
        selectedValue := d.value.newSelectedValue.value;
      }
      if index != oldIndex {
        selectedIndex := index;
      }
      display := Some(index);
    }

    /**
     * `handleTabChange` on the tab at position `i`: select its value and
     * index, and store the choice for the group, if any.
     */
    method SelectTab(values: seq<TabValue>, i: nat, groupId: Option<string>)
      returns (choice: Option<(string, string)>)
      requires i < |values|
      modifies this
      ensures selectedValue == values[i].value && selectedIndex == i
      ensures choice == if groupId.Some? then Some((groupId.value, values[i].value)) else None
    {
      selectedValue := values[i].value;
      selectedIndex := i;
      choice := if groupId.Some? then Some((groupId.value, values[i].value)) else None;
    }
  }
}
