# Select dropdown: value and visibility model

This project models the `Select` component of a React country-picker demo
(`src/Select.tsx`). It covers the logic only. The component owns two pieces of
state: the internal value `currentValue` and the flag `isDropdownHidden`. It
reacts to four events: a click on the trigger input, a click on an Option, a
click outside the component, and a change of the `defaultValue` prop. From its
props and that state it derives several things:

- the effective value (`value || currentValue`);
- the text of the read-only input (`label ?? placeholder ?? ""`) and the
  placeholder flag;
- the context it hands to its `Select.Option` children;
- the dropdown panel's content (loading, empty or the items);
- the helper text.

Layout:

- `values.dfy` (`Values`): `Value = Str | Num`, JavaScript truthiness (`""` and
  `0` are falsy) and `||` on optional values.
- `options.dfy` (`Options`): the Option descriptor, `label || children`, the
  label lookup over the ordered children (a recursive specification
  `LabelLookup` and the imperative `GetLabelFromOptionChildren` loop proved
  against it), the `useSelectContext` fail-fast check, and the Option's
  `isSelected` flag and click.
- `select_view.dfy` (`SelectView`): the props and one render of the Select.
- `select_machine.dfy` (`SelectMachine`): the state and its transitions as
  pure functions, plus lemmas about whole sequences of events.
- `select_component.dfy` (`SelectComponent`): the class `Select`. It holds the
  two state fields, a ghost log of `onChange` calls and a ghost count of focus
  requests. Each handler is a method, and each method's contract states the new
  fields and ties the new state to the transition function.

Points of the code's behaviour that the model keeps as written:

- If several Options share a value, the label comes from the **last** of them,
  because the `forEach` keeps overwriting `label` (`src/Select.tsx:156-163`).
- The placeholder flag is `display === placeholder`
  (`src/Select.tsx:211`). So it is also raised when a found label has the same
  text as the placeholder, and it is never raised when there is no
  placeholder.
- The Select's `isDisabled` only blocks the trigger (`src/Select.tsx:238-244`).
  A click on an enabled Option still commits, whatever `isDisabled` says, and
  the handler does not check whether the panel is hidden.
- A falsy effective value (`0` or `""`) is never looked up
  (`src/Select.tsx:207-209`). Committing such an Option marks it as selected,
  yet the input shows the placeholder, or nothing when there is none.
- A falsy `value` prop (`0` or `""`) does not make the Select controlled: the
  internal value is shown instead.

## Model

| member | source | states |
|---|---|---|
| Values.Or | src/Select.tsx:206 | `x \|\| y` is `x` when `x` is truthy and `y` otherwise (so `0 \|\| null` is null), and its result is truthy exactly when either operand is |
| Values.OrNullSpec | src/Select.tsx:199-201 | `x \|\| null` keeps exactly the truthy values, is otherwise null, and is idempotent |
| Options.Caption | src/Select.tsx:161 | an option's caption is its `label` when that is a non-empty string, else its children text |
| Options.LabelLookupSpec | src/Select.tsx:151-166 | lookup is null exactly when no option has the value; otherwise it is the caption of the last option with that value, and such an option exists |
| Options.GetLabelFromOptionChildren | src/Select.tsx:151-166 | the `forEach` loop's result: null iff no option matches, else the last match's caption (equal to the recursive specification) |
| Options.UniqueLabelLookup | src/Select.tsx:151-166 | when option values are pairwise distinct, the lookup of an option's value gives that option's caption |
| Options.LastDuplicateWins | src/Select.tsx:156-163 | with two options of the same value, the later one's caption is returned |
| Options.EmptyLabelFallsBack | src/Select.tsx:161 | an empty `label` falls back to the children text |
| Options.UseSelectContext | src/Select.tsx:22-29 | a missing context is an error carrying "Must be used within a SelectContext"; a present one is returned as is |
| Options.ClickedValue | src/Select.tsx:49-54 | a click on a disabled Option passes nothing up; on an enabled one it passes the Option's own value (only inside a context) |
| Options.SelectedIffSameValue | src/Select.tsx:39-40 | an Option is selected exactly when the context value equals its value |
| Options.ExactlyOneSelected | src/Select.tsx:38-40 | with distinct option values and the context value taken from option i, option i and no other is selected |
| SelectView.LabelDisplay | src/Select.tsx:210 | the input text is the label if found, else the placeholder, else the empty string |
| SelectView.DropdownContent | src/Select.tsx:119-122 | the panel shows loading exactly when loading, the items exactly when not loading with children, and "Empty" otherwise |
| SelectView.HelperText | src/Select.tsx:226-291 | helper text is shown iff `helperText` or `errorMessage` is non-empty; it is never empty, and a non-empty error wins |
| SelectView.FinalValueSpec | src/Select.tsx:206 | the effective value is the external value when truthy, the internal value otherwise |
| SelectView.DisplaySpec | src/Select.tsx:206-211 | the input shows the last matching option's caption for a truthy effective value; with no truthy value or no match it shows the placeholder (flagged) or "" |
| SelectView.PlaceholderFlagSpec | src/Select.tsx:210-211 | the placeholder flag holds iff a placeholder is given and either no label was found or the label equals it |
| SelectView.ControlledValueWins | src/Select.tsx:206-224 | with a truthy `value` prop the whole render, context included, is independent of the internal value |
| SelectView.FalsyValueShowsPlaceholder | src/Select.tsx:206-210 | an internal falsy value marks its Option selected while the input shows the placeholder or "" |
| SelectView.PanelContentIndependentOfState | src/Select.tsx:282-287 | the panel's content does not depend on the value or the visibility; items only appear when not loading and with options |
| SelectMachine.Initial | src/Select.tsx:199-202 | the initial state is hidden, holding `defaultValue` iff it is truthy and null otherwise; the mount-time reset then changes nothing |
| SelectMachine.StepSpec | src/Select.tsx:214-244 | per event: a disabled trigger click is a no-op, an enabled one flips visibility only; a commit sets value and hides; a disabled Option is a no-op; an outside click hides and keeps the value; a reset sets `defaultValue \|\| null` and keeps visibility; `onChange` fires once, only on a commit with an observer; focus is requested once per commit |
| SelectMachine.RunAppend | src/Select.tsx:214-244 | running two event sequences in turn is running their concatenation, and their `onChange` calls concatenate |
| SelectMachine.TriggerParity | src/Select.tsx:238-244 | n trigger clicks on an enabled Select flip the visibility iff n is odd and never move the value; on a disabled Select they change nothing; no `onChange` call |
| SelectMachine.ToggleTwiceRestores | src/Select.tsx:238-244 | two trigger clicks restore the original state |
| SelectMachine.OnChangeOncePerCommit | src/Select.tsx:214-219 | over any event sequence, `onChange` receives exactly the values of the enabled Options clicked, in order (nothing without an observer) |
| SelectMachine.ValueOnlyMovesOnCommitOrReset | src/Select.tsx:230-244 | trigger clicks, outside clicks and disabled Option clicks never change the internal value or call `onChange` |
| SelectMachine.ClosedAfterCommit | src/Select.tsx:214-219 | after any history, a commit leaves the dropdown hidden holding the chosen value and adds one `onChange` call |
| SelectMachine.ClosedAfterOutsideClick | src/Select.tsx:234-236 | after any history, an outside click hides the dropdown, keeps the value and calls nothing |
| SelectMachine.CommitShowsLabel | src/Select.tsx:206-219 | in an uncontrolled Select a committed truthy value shows the last matching caption, the panel is hidden, and exactly the Options with that value are selected |
| SelectMachine.ControlledIgnoresEvents | src/Select.tsx:206-211 | with a truthy `value` prop no event sequence changes the input text |
| SelectMachine.InitialShowsPlaceholder | src/Select.tsx:199-211 | with neither `value` nor `defaultValue` truthy, the initial render shows the placeholder, flagged, with the panel hidden |
| SelectMachine.PlaceholderThenPickScenario | src/Select.tsx:199-244 | placeholder "123" and Option 1: shows "123" hidden; a trigger click opens; picking the Option hides and shows "1" |
| SelectMachine.TwoPicksScenario | src/Select.tsx:206-219 | Options 1 and 2: picking 1 then 2 shows "1" then "2" and calls `onChange` with 1 then 2 |
| SelectComponent.Select.constructor | src/Select.tsx:199-202 | mount: hidden dropdown, `currentValue == defaultValue \|\| null`, no `onChange` or focus yet |
| SelectComponent.Select.HandleClickInput | src/Select.tsx:238-244 | disabled: nothing changes; enabled: visibility flips; the value, log and focus are untouched |
| SelectComponent.Select.HandleSelectOption | src/Select.tsx:214-219 | value becomes v, dropdown hidden, one focus request, `onChange` log grows by exactly [v] when an observer is given |
| SelectComponent.Select.HandleClickOutside | src/Select.tsx:234-236 | dropdown hidden; value, log and focus untouched |
| SelectComponent.Select.HandleDefaultValueChange | src/Select.tsx:230-232 | value reset to `defaultValue \|\| null`; visibility, log and focus untouched |
| SelectComponent.Select.ClickOption | src/Select.tsx:49-54 | disabled Option: nothing changes; enabled: commits its value through the context callback, matching the transition function |
| SelectComponent.ToggleAndPick | src/Select.tsx:214-244 | open, pick an enabled Option, toggle twice: the dropdown ends hidden, the input shows the last matching caption, the context holds the picked value, and `onChange` was called exactly once with it (never without an observer) |

## Left out

- Styling: the styled-jsx CSS blocks, the class names built with `cls` (`./utils/classNames` is not part of this model), and the `has-error` styling switch.
- React mechanics: `useId`, refs, the JSX tree, render scheduling and batching of state updates. `React.Children` traversal and `isValidElement` filtering are replaced by an explicit ordered sequence of option descriptors, every one of them a valid Option.
- The `label` prop of the Select and its `<label>` element, and `className`: markup only.
- DOM focus: `inputRef.current?.focus()` is a ghost counter of focus requests. A missing input element (a null ref) is not modelled.
- The outside-click detection from `usehooks-ts` (its event choice and geometric hit test) is not part of this model. The outside click is an abstract event.
- Numbers are integers: `NaN` (falsy) and fractional values are not modelled.
- Event sequences keep the props fixed, except that a `defaultValue` change travels with its reset event. A `value` prop that changes between events is not modelled by `Run`.
- `DefaultChanged` and `Select.HandleDefaultValueChange` reset the value on every call, even when the new `defaultValue` equals the previous one. React runs the `[defaultValue]` effect only when the value really changes, so a trace that repeats the current default has no counterpart in the component.
- `src/App.tsx`: demo composition, the asynchronous country fetch (its helper is not part of this model) and the `getTip` demo text.
- `src/Select.test.tsx`: every test is a placeholder that always fails, so it specifies no behaviour. Its keyboard-navigation cases describe features the component does not have.
- `vite.config.ts` and the mock HTTP handlers: build configuration and test plumbing.
