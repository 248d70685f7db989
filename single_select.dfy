/**
 * The single-select drop-down: the parent owns the selected value (a string,
 * a number, or nothing); the component keeps only whether its list is open.
 * Values are matched with `===`, so the string "1" and the number 1 differ.
 */
module SingleSelect {
  import opened Optional

  /** `string | number`; JavaScript's numbers are taken to be integers here. */
  datatype Value = Str(s: string) | Number(n: int)

  /** One entry of the `options` prop; `text` is the option's `label`. */
  datatype SelectOption = SelectOption(id: Value, text: string, value: Value)

  /** Strict equality of the option's value with the selection; a `null` selection is `None` and matches no option. */
  predicate Matches(option: SelectOption, selectedValue: Option<Value>) {
    selectedValue == Some(option.value)
  }

  /** `options.find(...)`: the index of the first option whose value is the selected one. */
  function FindOption(options: seq<SelectOption>, selectedValue: Option<Value>): (r: Option<nat>)
    ensures r.Some? ==> r.value < |options| && Matches(options[r.value], selectedValue)
    ensures r.Some? ==> forall j :: 0 <= j < r.value ==> !Matches(options[j], selectedValue)
    ensures r.None? <==> forall i :: 0 <= i < |options| ==> !Matches(options[i], selectedValue)
  {
    if |options| == 0 then None
    else if Matches(options[0], selectedValue) then Some(0)
    else
      var rest := FindOption(options[1..], selectedValue);
      assert forall i :: 1 <= i < |options| ==> options[i] == options[1..][i - 1];
      if rest.Some? then Some(rest.value + 1) else None
  }

  /** Nothing selected: no option is found. */
  lemma NullSelectsNothing(options: seq<SelectOption>)
    ensures FindOption(options, None) == None
  {
  }

  /**
   * A string selection never picks an option whose value is a number, even
   * one written with the same digits.
   */
  lemma StringDoesNotMatchNumber(options: seq<SelectOption>, s: string)
    requires forall i :: 0 <= i < |options| ==> options[i].value.Number?
    ensures FindOption(options, Some(Str(s))) == None
  {
  }

  /** The trigger's text: the found option's label, or the placeholder. */
  function DisplayText(options: seq<SelectOption>, selectedValue: Option<Value>, placeholder: string): (r: string)
    ensures FindOption(options, selectedValue).None? ==> r == placeholder
    ensures FindOption(options, selectedValue).Some? ==> r == options[FindOption(options, selectedValue).value].text
    ensures FindOption(options, selectedValue).Some? ==>
      exists i :: 0 <= i < |options| && Matches(options[i], selectedValue) && r == options[i].text
  {
    var found := FindOption(options, selectedValue);
    if found.Some? then options[found.value].text else placeholder
  }

  /** The row of an option is highlighted when its value is the selected one. */
  predicate Highlighted(option: SelectOption, selectedValue: Option<Value>) {
    Matches(option, selectedValue)
  }

  /**
   * The list and the trigger agree: some row is highlighted exactly when the
   * trigger shows an option's label, and the row of that option is one of
   * the highlighted ones.
   */
  lemma HighlightAgreesWithTrigger(options: seq<SelectOption>, selectedValue: Option<Value>)
    ensures (exists i :: 0 <= i < |options| && Highlighted(options[i], selectedValue)) <==>
      FindOption(options, selectedValue).Some?
    ensures FindOption(options, selectedValue).Some? ==>
      Highlighted(options[FindOption(options, selectedValue).value], selectedValue)
  {
  }

  predicate DistinctValues(options: seq<SelectOption>) {
    forall i, j :: 0 <= i < j < |options| ==> options[i].value != options[j].value
  }

  /**
   * When option values are distinct, after the parent stores the value of
   * option i the trigger shows that option's label, and that row alone is
   * highlighted.
   */
  lemma ChosenOptionIsShown(options: seq<SelectOption>, i: nat, placeholder: string)
    requires i < |options| && DistinctValues(options)
    ensures DisplayText(options, Some(options[i].value), placeholder) == options[i].text
    ensures forall j :: 0 <= j < |options| ==> (Highlighted(options[j], Some(options[i].value)) <==> j == i)
  {
    var found := FindOption(options, Some(options[i].value));
    assert found != None by {
      assert Matches(options[i], Some(options[i].value));
    }
    assert found.value == i;
  }

  /**
   * With a repeated value the trigger shows the label of the first option
   * carrying it, while every row carrying it is highlighted.
   */
  lemma DuplicateValuesShowFirst(options: seq<SelectOption>, i: nat, j: nat, placeholder: string)
    requires i < j < |options| && options[i].value == options[j].value
    requires forall k :: 0 <= k < i ==> options[k].value != options[i].value
    ensures DisplayText(options, Some(options[i].value), placeholder) == options[i].text
    ensures Highlighted(options[i], Some(options[i].value)) && Highlighted(options[j], Some(options[i].value))
  {
    var found := FindOption(options, Some(options[i].value));
    assert found != None by {
      assert Matches(options[i], Some(options[i].value));
    }
    assert found.value == i;
  }

  /** What an open list shows: the empty message when there are no options, else the options' labels. */
  datatype ListView = EmptyMessage(message: string) | Choices(labels: seq<string>)

  function OpenList(options: seq<SelectOption>, emptyMessage: string): (v: ListView)
    ensures |options| == 0 <==> v.EmptyMessage?
    ensures v.EmptyMessage? ==> v.message == emptyMessage
    ensures v.Choices? ==> |v.labels| == |options| && forall i :: 0 <= i < |options| ==> v.labels[i] == options[i].text
  {
    if |options| == 0 then EmptyMessage(emptyMessage)
    else Choices(seq(|options|, i requires 0 <= i < |options| => options[i].text))
  }

  /** The drop-down's own state: whether its option list is open. */
  class SingleSelectState {
    var isOpen: bool

    constructor ()
      ensures !isOpen
    {
      isOpen := false;
    }

    /** A click on the trigger opens a closed list and closes an open one. */
    method ClickTrigger()
      modifies this
      ensures isOpen == !old(isOpen)
    {
      isOpen := !isOpen;
    }

    /** The full-screen layer behind an open list closes it. */
    method ClickOverlay()
      requires isOpen
      modifies this
      ensures !isOpen
    {
      isOpen := false;
    }

    /**
     * `handleSelect`: a click on an option hands its value to the parent and
     * closes the list (the click does not reach the trigger, so the list is
     * not toggled open again).
     */
    method ChooseOption(options: seq<SelectOption>, i: nat) returns (emitted: Value)
      requires isOpen && i < |options|
      modifies this
      ensures emitted == options[i].value
      ensures !isOpen
    {
      emitted := options[i].value;
      isOpen := false;
    }
  }
}
