/**
 * The `Select` component as an object: the two pieces of React state it owns
 * and the handlers that update them. Props arrive as method arguments. The
 * `onChange` observer is a ghost log of the values it was called with, and the
 * input's `focus()` call a ghost counter.
 */
module SelectComponent {
  import opened Values
  import opened Options
  import opened SelectView
  import opened SelectMachine

  class Select {
    var currentValue: Option<Value>
    var isDropdownHidden: bool
    /** The values `onChange` has been called with, oldest first. */
    ghost var onChangeLog: seq<Value>
    /** How many times the input has been asked to take focus. */
    ghost var focusRequests: nat

    function State(): SelectState
      reads this
    {
      SelectState(currentValue, isDropdownHidden)
    }

    /** What the component renders now for the props `p`. */
    function View(p: Props): View
      reads this
    {
      Render(p, currentValue, isDropdownHidden)
    }

    /** Mount: `useState(defaultValue || null)` and a hidden dropdown. */
    constructor (defaultValue: Option<Value>)
      ensures isDropdownHidden
      ensures currentValue == OrNull(defaultValue)
      ensures State() == Initial(defaultValue)
      ensures onChangeLog == [] && focusRequests == 0
    {
      currentValue := OrNull(defaultValue);
      isDropdownHidden := true;
      onChangeLog := [];
      focusRequests := 0;
    }

    /** `handleClickInput`: ignored while disabled, otherwise toggles the dropdown. */
    method HandleClickInput(isDisabled: bool)
      modifies this
      ensures isDisabled ==> isDropdownHidden == old(isDropdownHidden)
      ensures !isDisabled ==> isDropdownHidden == !old(isDropdownHidden)
      ensures currentValue == old(currentValue)
      ensures onChangeLog == old(onChangeLog) && focusRequests == old(focusRequests)
      ensures State() == ClickInput(old(State()), isDisabled)
    {
      if isDisabled {
        return;
      }
      isDropdownHidden := !isDropdownHidden;
    }

    /** `handleSelectOption(v)`: commits `v`, closes, focuses the input and notifies the observer. */
    method HandleSelectOption(v: Value, hasOnChange: bool)
      modifies this
      ensures currentValue == Some(v) && isDropdownHidden
      ensures focusRequests == old(focusRequests) + 1
      ensures onChangeLog == old(onChangeLog) + (if hasOnChange then [v] else [])
      ensures State() == SelectOption(old(State()), v)
    {
      currentValue := Some(v);
      isDropdownHidden := true;
      focusRequests := focusRequests + 1;
      if hasOnChange {
        onChangeLog := onChangeLog + [v];
      }
    }

    /** The outside-click callback: closes the dropdown, nothing else. */
    method HandleClickOutside()
      modifies this
      ensures isDropdownHidden
      ensures currentValue == old(currentValue)
      ensures onChangeLog == old(onChangeLog) && focusRequests == old(focusRequests)
      ensures State() == ClickOutside(old(State()))
    {
      isDropdownHidden := true;
    }

    /** The effect on `[defaultValue]`: resets the internal value, nothing else. */
    method HandleDefaultValueChange(defaultValue: Option<Value>)
      modifies this
      ensures currentValue == OrNull(defaultValue)
      ensures isDropdownHidden == old(isDropdownHidden)
      ensures onChangeLog == old(onChangeLog) && focusRequests == old(focusRequests)
      ensures State() == ResetDefault(old(State()), defaultValue)
    {
      currentValue := OrNull(defaultValue);
    }

    /**
     * A click on the Option `o` rendered inside this Select: a disabled Option
     * does nothing; an enabled one calls the context's `onSelectOption`, which is
     * `HandleSelectOption`, with its own value.
     */
    method ClickOption(p: Props, o: OptionDesc)
      modifies this
      ensures o.isDisabled ==>
                State() == old(State()) && onChangeLog == old(onChangeLog) && focusRequests == old(focusRequests)
      ensures !o.isDisabled ==>
                currentValue == Some(o.value) && isDropdownHidden &&
                onChangeLog == old(onChangeLog) + (if p.hasOnChange then [o.value] else []) &&
                focusRequests == old(focusRequests) + 1
      ensures State() == Step(p, old(State()), Pick(o))
      ensures onChangeLog == old(onChangeLog) + ChangeCalls(p, old(State()), Pick(o))
      ensures focusRequests == old(focusRequests) + FocusCalls(p, old(State()), Pick(o))
    {
      var ctx := Some(SelectContextValue(FinalValue(p, currentValue)));
      var picked := ClickedValue(ctx, o);
      match picked {
        case Some(v) =>
          HandleSelectOption(v, p.hasOnChange);
        case None =>
      }
    }
  }

  /**
   * The mounted component driven through the toggle, a commit and a second
   * toggle pair: it ends closed, showing the committed option, and `calls`,
   * the `onChange` log, holds that option's value once.
   */
  method ToggleAndPick(p: Props, o: OptionDesc) returns (view: View, ghost calls: seq<Value>)
    requires !p.isDisabled && !o.isDisabled && !Present(p.value) && Truthy(o.value)
    requires exists i :: IsLastMatch(o.value, p.options, i)
    ensures view.dropdownHidden
    ensures forall i :: IsLastMatch(o.value, p.options, i) ==> view.display == Caption(p.options[i])
    ensures view.context.value == Some(o.value)
    ensures calls == (if p.hasOnChange then [o.value] else [])
  {
    var s := new Select(p.defaultValue);
    s.HandleClickInput(p.isDisabled);
    assert !s.isDropdownHidden;
    s.ClickOption(p, o);
    s.HandleClickInput(p.isDisabled);
    s.HandleClickInput(p.isDisabled);
    calls := s.onChangeLog;
    view := s.View(p);
    DisplaySpec(p, s.currentValue, s.isDropdownHidden);
  }
}
