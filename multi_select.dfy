/**
 * The multi-select drop-down: a list of options with check boxes, whose
 * selection is owned by the parent. The component keeps only whether its
 * list is open; a click on an option hands the parent the toggled selection.
 */
module MultiSelect {
  import opened JsText

  /** One entry of the `options` prop; `text` is the option's `label`. */
  datatype SelectOption = SelectOption(id: string, text: string, value: string)

  /** Every copy of the value removed, the rest kept in order. */
  function RemoveValue(values: seq<string>, value: string): (r: seq<string>)
    ensures value !in r
    ensures |r| <= |values|
  {
    if |values| == 0 then []
    else
      assert values == [values[0]] + values[1..];
      (if values[0] == value then [] else [values[0]]) + RemoveValue(values[1..], value)
  }

  /** Every copy of the value goes, and every other value keeps its number of copies. */
  lemma {:induction false} RemoveValueCount(values: seq<string>, value: string)
    ensures forall w :: multiset(RemoveValue(values, value))[w] == if w == value then 0 else multiset(values)[w]
  {
    if |values| > 0 {
      var head := if values[0] == value then [] else [values[0]];
      RemoveValueCount(values[1..], value);
      assert RemoveValue(values, value) == head + RemoveValue(values[1..], value);
      assert values == [values[0]] + values[1..];
    }
  }

  /** Filtering distributes over concatenation, so the survivors keep their order. */
  lemma {:induction false} RemoveValueAppend(a: seq<string>, b: seq<string>, value: string)
    ensures RemoveValue(a + b, value) == RemoveValue(a, value) + RemoveValue(b, value)
  {
    if |a| > 0 {
      var head := if a[0] == value then [] else [a[0]];
      assert (a + b)[0] == a[0] && (a + b)[1..] == a[1..] + b;
      RemoveValueAppend(a[1..], b, value);
      assert RemoveValue(a + b, value) == head + RemoveValue(a[1..] + b, value);
      assert RemoveValue(a, value) == head + RemoveValue(a[1..], value);
    } else {
      assert a + b == b;
    }
  }

  /** Removing a value that is not there changes nothing. */
  lemma {:induction false} RemoveAbsentValue(values: seq<string>, value: string)
    requires value !in values
    ensures RemoveValue(values, value) == values
  {
    if |values| > 0 {
      RemoveAbsentValue(values[1..], value);
      assert values == [values[0]] + values[1..];
    }
  }

  /**
   * `handleToggle`: a selected value is removed (all of its copies), an
   * unselected one is appended at the end.
   */
  function Toggle(selectedValues: seq<string>, value: string): (r: seq<string>)
    ensures value in r <==> value !in selectedValues
    ensures forall w :: w != value ==> multiset(r)[w] == multiset(selectedValues)[w]
    ensures value !in selectedValues ==> r == selectedValues + [value]
  {
    if value in selectedValues then
      RemoveValueCount(selectedValues, value);
      RemoveValue(selectedValues, value)
    else
      assert multiset(selectedValues + [value]) == multiset(selectedValues) + multiset{value};
      selectedValues + [value]
  }

  /** Checking an unchecked option and then unchecking it restores the selection exactly. */
  lemma ToggleTwiceRestores(selectedValues: seq<string>, value: string)
    requires value !in selectedValues
    ensures Toggle(Toggle(selectedValues, value), value) == selectedValues
  {
    RemoveValueAppend(selectedValues, [value], value);
    RemoveAbsentValue(selectedValues, value);
  }

  /**
   * Unchecking a checked option and checking it again does not restore the
   * selection: the value moves to the end, and any duplicate copies are gone.
   */
  lemma ToggleTwiceMovesToEnd(selectedValues: seq<string>, value: string)
    requires value in selectedValues
    ensures Toggle(Toggle(selectedValues, value), value) == RemoveValue(selectedValues, value) + [value]
  {
  }

  /** An option's box is checked when its value is among the selected ones. */
  predicate Checked(option: SelectOption, selectedValues: seq<string>) {
    option.value in selectedValues
  }

  /**
   * `selectedLabels`: the labels of the checked options, in the order of the
   * options (not the order of selection); selected values with no option
   * contribute nothing.
   */
  function SelectedLabels(options: seq<SelectOption>, selectedValues: seq<string>): (r: seq<string>)
    ensures |r| <= |options|
    ensures forall k :: 0 <= k < |r| ==> exists i :: 0 <= i < |options| && Checked(options[i], selectedValues) && options[i].text == r[k]
    ensures forall i :: 0 <= i < |options| && Checked(options[i], selectedValues) ==> options[i].text in r
  {
    if |options| == 0 then []
    else
      var rest := SelectedLabels(options[1..], selectedValues);
      assert forall i :: 1 <= i < |options| ==> options[i] == options[1..][i - 1];
      if Checked(options[0], selectedValues) then [options[0].text] + rest else rest
  }

  /** One option contributes its label exactly when it is checked. */
  lemma SelectedLabelsOfOne(option: SelectOption, selectedValues: seq<string>)
    ensures SelectedLabels([option], selectedValues) == if Checked(option, selectedValues) then [option.text] else []
  {
    assert [option][1..] == [];
  }

  /**
   * The labels of a concatenation of option lists are the labels of the
   * first list followed by those of the second: together with the one-option
   * case, the labels are the checked options' labels, one per checked
   * option, in option order.
   */
  lemma {:induction false} SelectedLabelsAppend(o1: seq<SelectOption>, o2: seq<SelectOption>, selectedValues: seq<string>)
    ensures SelectedLabels(o1 + o2, selectedValues) == SelectedLabels(o1, selectedValues) + SelectedLabels(o2, selectedValues)
  {
    if |o1| == 0 {
      assert o1 + o2 == o2;
    } else {
      assert (o1 + o2)[0] == o1[0] && (o1 + o2)[1..] == o1[1..] + o2;
      SelectedLabelsAppend(o1[1..], o2, selectedValues);
    }
  }

  /**
   * Two checked options show their labels in option order, whichever was
   * selected first.
   */
  lemma LabelsFollowOptionOrder(a: SelectOption, b: SelectOption, selectedValues: seq<string>)
    requires Checked(a, selectedValues) && Checked(b, selectedValues)
    ensures SelectedLabels([a, b], selectedValues) == [a.text, b.text]
  {
    var first, second := [a], [b];
    assert first + second == [a, b];
    SelectedLabelsAppend(first, second, selectedValues);
    SelectedLabelsOfOne(a, selectedValues);
    SelectedLabelsOfOne(b, selectedValues);
  }

  /** The labels shown depend only on which values are selected, not on their order or repetition. */
  lemma {:induction false} SelectedLabelsBySet(options: seq<SelectOption>, s1: seq<string>, s2: seq<string>)
    requires forall v :: v in s1 <==> v in s2
    ensures SelectedLabels(options, s1) == SelectedLabels(options, s2)
  {
    if |options| > 0 {
      SelectedLabelsBySet(options[1..], s1, s2);
    }
  }

  /** Toggling a value that no option carries leaves the shown labels as they were. */
  lemma {:induction false} ToggleUnknownValueKeepsLabels(options: seq<SelectOption>, selectedValues: seq<string>, value: string)
    requires forall i :: 0 <= i < |options| ==> options[i].value != value
    ensures SelectedLabels(options, Toggle(selectedValues, value)) == SelectedLabels(options, selectedValues)
  {
    if |options| > 0 {
      var t := Toggle(selectedValues, value);
      var w := options[0].value;
      assert multiset(t)[w] == multiset(selectedValues)[w];
      assert w in t <==> w in selectedValues;
      ToggleUnknownValueKeepsLabels(options[1..], selectedValues, value);
    }
  }

  /** The trigger's text: the selected labels joined by ", ", or the placeholder when there are none. */
  function DisplayText(options: seq<SelectOption>, selectedValues: seq<string>, placeholder: string): (r: string)
    ensures |SelectedLabels(options, selectedValues)| == 0 ==> r == placeholder
    ensures |SelectedLabels(options, selectedValues)| == 1 ==> r == SelectedLabels(options, selectedValues)[0]
    ensures |SelectedLabels(options, selectedValues)| >= 1 ==> SelectedLabels(options, selectedValues)[0] <= r
  {
    var labels := SelectedLabels(options, selectedValues);
    if |labels| > 0 then Join(labels, ", ") else placeholder
  }

  /** The drop-down's own state: whether its option list is open. */
  class MultiSelectState {
    var isOpen: bool

    constructor ()
      ensures !isOpen
    {
      isOpen := false;
    }

    /** A click on the trigger opens a closed list and closes an open one. */
    method ClickTrigger()
      modifies this
      ensures isOpen == !old(isOpen)
    {
      isOpen := !isOpen;
    }

    /** The full-screen layer behind an open list closes it. */
    method ClickOverlay()
      requires isOpen
      modifies this
      ensures !isOpen
    {
      isOpen := false;
    }

    /**
     * A click on an option: the parent receives the toggled selection, and
     * since the click does not reach the trigger the list stays open.
     */
    method ClickOption(selectedValues: seq<string>, option: SelectOption) returns (emitted: seq<string>)
      requires isOpen
      ensures Checked(option, selectedValues) ==> emitted == RemoveValue(selectedValues, option.value)
      ensures !Checked(option, selectedValues) ==> emitted == selectedValues + [option.value]
      ensures isOpen
    {
      emitted := Toggle(selectedValues, option.value);
    }
  }
}
