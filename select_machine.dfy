/**
 * The Select's state and its transitions as values: the internal value and the
 * dropdown's visibility, changed by a click on the trigger, a click on an
 * Option, a click outside the component, and a change of `defaultValue`.
 * The `Select` class follows these functions step for step; the lemmas here are
 * about whole sequences of events.
 */
module SelectMachine {
  import opened Values
  import opened Options
  import opened SelectView

  datatype SelectState = SelectState(currentValue: Option<Value>, isDropdownHidden: bool)

  /** `useState(defaultValue || null)` and `useState(true)`; the mount-time reset effect changes nothing. */
  function Initial(defaultValue: Option<Value>): (st: SelectState)
    ensures st.isDropdownHidden
    ensures st.currentValue.Some? <==> Present(defaultValue)
    ensures st.currentValue.Some? ==> st.currentValue == defaultValue
    ensures ResetDefault(st, defaultValue) == st
  {
    SelectState(OrNull(defaultValue), true)
  }

  /** `handleClickInput`: no-op when disabled, otherwise flips the visibility. */
  function ClickInput(st: SelectState, isDisabled: bool): SelectState
  {
    if isDisabled then st else st.(isDropdownHidden := !st.isDropdownHidden)
  }

  /** `handleSelectOption(v)`: the value becomes `v` and the dropdown closes. */
  function SelectOption(st: SelectState, v: Value): SelectState
  {
    SelectState(Some(v), true)
  }

  /** The outside-click callback: the dropdown closes. */
  function ClickOutside(st: SelectState): SelectState
  {
    st.(isDropdownHidden := true)
  }

  /** The `defaultValue` effect: the internal value is reset to `defaultValue || null`. */
  function ResetDefault(st: SelectState, defaultValue: Option<Value>): SelectState
  {
    st.(currentValue := OrNull(defaultValue))
  }

  /** The context the Select provides to its Options in this state. */
  function ContextOf(p: Props, st: SelectState): SelectContextValue
  {
    SelectContextValue(FinalValue(p, st.currentValue))
  }

  /** The events the component reacts to. */
  datatype Event =
    | Trigger
    | Pick(o: OptionDesc)
    | Outside
    | DefaultChanged(defaultValue: Option<Value>)

  /** An event that commits a value: a click on an enabled Option. */
  predicate Commits(e: Event) {
    e.Pick? && !e.o.isDisabled
  }

  /** The new state after one event, the props being `p`. */
  function Step(p: Props, st: SelectState, e: Event): SelectState
  {
    match e
    case Trigger => ClickInput(st, p.isDisabled)
    case Pick(o) =>
      (match ClickedValue(Some(ContextOf(p, st)), o)
       case Some(v) => SelectOption(st, v)
       case None => st)
    case Outside => ClickOutside(st)
    case DefaultChanged(dv) => ResetDefault(st, dv)
  }

  /** The `onChange` calls one event causes, in order. */
  function ChangeCalls(p: Props, st: SelectState, e: Event): seq<Value>
  {
    match e
    case Pick(o) =>
      (match ClickedValue(Some(ContextOf(p, st)), o)
       case Some(v) => if p.hasOnChange then [v] else []
       case None => [])
    case _ => []
  }

  /** The focus requests one event causes: one per commit. */
  function FocusCalls(p: Props, st: SelectState, e: Event): nat
  {
    match e
    case Pick(o) => if ClickedValue(Some(ContextOf(p, st)), o).Some? then 1 else 0
    case _ => 0
  }

  /** The state after a sequence of events. */
  function Run(p: Props, st: SelectState, es: seq<Event>): SelectState
    decreases |es|
  {
    if es == [] then st else Run(p, Step(p, st, es[0]), es[1..])
  }

  /** The `onChange` calls a sequence of events causes. */
  function RunCalls(p: Props, st: SelectState, es: seq<Event>): seq<Value>
    decreases |es|
  {
    if es == [] then [] else ChangeCalls(p, st, es[0]) + RunCalls(p, Step(p, st, es[0]), es[1..])
  }

  /** The values of the enabled Options clicked in `es`, in order. */
  function Committed(es: seq<Event>): seq<Value>
    decreases |es|
  {
    if es == [] then []
    else (if Commits(es[0]) then [es[0].o.value] else []) + Committed(es[1..])
  }

  /** `n` copies of one event. */
  function Repeat(e: Event, n: nat): (es: seq<Event>)
    ensures |es| == n
    ensures forall i :: 0 <= i < n ==> es[i] == e
  {
    if n == 0 then [] else [e] + Repeat(e, n - 1)
  }

  /** One event: what changes, what stays, and which `onChange` calls are made. */
  lemma StepSpec(p: Props, st: SelectState, e: Event)
    ensures e == Trigger && p.isDisabled ==> Step(p, st, e) == st
    ensures e == Trigger && !p.isDisabled ==>
              Step(p, st, e).isDropdownHidden == !st.isDropdownHidden &&
              Step(p, st, e).currentValue == st.currentValue
    ensures Commits(e) ==> Step(p, st, e) == SelectState(Some(e.o.value), true)
    ensures e.Pick? && e.o.isDisabled ==> Step(p, st, e) == st
    ensures e == Outside ==>
              Step(p, st, e).isDropdownHidden && Step(p, st, e).currentValue == st.currentValue
    ensures e.DefaultChanged? ==>
              Step(p, st, e).currentValue == OrNull(e.defaultValue) &&
              Step(p, st, e).isDropdownHidden == st.isDropdownHidden
    ensures ChangeCalls(p, st, e) == (if Commits(e) && p.hasOnChange then [e.o.value] else [])
    ensures FocusCalls(p, st, e) == (if Commits(e) then 1 else 0)
  {
  }

  /** Running `a` then `b` is running `a + b`; the calls concatenate. */
  lemma {:induction false} RunAppend(p: Props, st: SelectState, a: seq<Event>, b: seq<Event>)
    ensures Run(p, st, a + b) == Run(p, Run(p, st, a), b)
    ensures RunCalls(p, st, a + b) == RunCalls(p, st, a) + RunCalls(p, Run(p, st, a), b)
    decreases |a|
  {
    if a == [] {
      assert a + b == b;
    } else {
      assert (a + b)[0] == a[0];
      assert (a + b)[1..] == a[1..] + b;
      RunAppend(p, Step(p, st, a[0]), a[1..], b);
    }
  }

  /**
   * `n` clicks on the trigger of an enabled Select leave the visibility as it
   * was when `n` is even and flip it when `n` is odd; the value never moves.
   * On a disabled Select they change nothing.
   */
  lemma {:induction false} TriggerParity(p: Props, st: SelectState, n: nat)
    ensures Run(p, st, Repeat(Trigger, n)) ==
            if p.isDisabled || n % 2 == 0 then st
            else st.(isDropdownHidden := !st.isDropdownHidden)
    ensures RunCalls(p, st, Repeat(Trigger, n)) == []
    decreases n
  {
    if n > 0 {
      var es := Repeat(Trigger, n);
      assert es[0] == Trigger && es[1..] == Repeat(Trigger, n - 1);
      TriggerParity(p, Step(p, st, Trigger), n - 1);
    }
  }

  /** Two enabled trigger clicks restore the original state. */
  lemma ToggleTwiceRestores(p: Props, st: SelectState)
    ensures Run(p, st, [Trigger, Trigger]) == st
  {
    TriggerParity(p, st, 2);
    assert Repeat(Trigger, 2) == [Trigger, Trigger];
  }

  /**
   * `onChange` is called once per committed selection, with the Option's value,
   * in the order of the clicks, and never for trigger clicks, outside clicks,
   * disabled Options or resets; without an observer it is never called.
   */
  lemma {:induction false} OnChangeOncePerCommit(p: Props, st: SelectState, es: seq<Event>)
    ensures RunCalls(p, st, es) == if p.hasOnChange then Committed(es) else []
    decreases |es|
  {
    if es != [] {
      StepSpec(p, st, es[0]);
      OnChangeOncePerCommit(p, Step(p, st, es[0]), es[1..]);
    }
  }

  /** Events that neither commit nor reset leave the internal value untouched. */
  lemma {:induction false} ValueOnlyMovesOnCommitOrReset(p: Props, st: SelectState, es: seq<Event>)
    requires forall i :: 0 <= i < |es| ==> !Commits(es[i]) && !es[i].DefaultChanged?
    ensures Run(p, st, es).currentValue == st.currentValue
    ensures RunCalls(p, st, es) == []
    decreases |es|
  {
    if es != [] {
      StepSpec(p, st, es[0]);
      assert forall i :: 0 <= i < |es[1..]| ==> es[1..][i] == es[i + 1];
      ValueOnlyMovesOnCommitOrReset(p, Step(p, st, es[0]), es[1..]);
    }
  }

  /** Right after any history, a commit leaves the dropdown closed and the chosen value held. */
  lemma ClosedAfterCommit(p: Props, st: SelectState, es: seq<Event>, o: OptionDesc)
    requires !o.isDisabled
    ensures Run(p, st, es + [Pick(o)]) == SelectState(Some(o.value), true)
    ensures RunCalls(p, st, es + [Pick(o)]) == RunCalls(p, st, es) + (if p.hasOnChange then [o.value] else [])
  {
    RunAppend(p, st, es, [Pick(o)]);
    StepSpec(p, Run(p, st, es), Pick(o));
  }

  /** Right after any history, an outside click closes the dropdown and keeps the value. */
  lemma ClosedAfterOutsideClick(p: Props, st: SelectState, es: seq<Event>)
    ensures Run(p, st, es + [Outside]) == Run(p, st, es).(isDropdownHidden := true)
    ensures RunCalls(p, st, es + [Outside]) == RunCalls(p, st, es)
  {
    RunAppend(p, st, es, [Outside]);
  }

  /**
   * In an uncontrolled Select a commit of a truthy value makes the input show the
   * caption of the last option carrying that value, closes the panel and makes
   * the Options with that value, and only those, selected.
   */
  lemma CommitShowsLabel(p: Props, st: SelectState, es: seq<Event>, o: OptionDesc, i: int)
    requires !Present(p.value) && !o.isDisabled && Truthy(o.value)
    requires IsLastMatch(o.value, p.options, i)
    ensures var s := Run(p, st, es + [Pick(o)]);
            var view := Render(p, s.currentValue, s.isDropdownHidden);
            view.display == Caption(p.options[i]) && view.dropdownHidden &&
            (forall q :: IsSelected(Some(view.context), q) <==> q.value == o.value)
  {
    ClosedAfterCommit(p, st, es, o);
    DisplaySpec(p, Some(o.value), true);
  }

  /** In a controlled Select no history of events changes what the input shows. */
  lemma ControlledIgnoresEvents(p: Props, st: SelectState, es: seq<Event>)
    requires Present(p.value)
    ensures var s := Run(p, st, es);
            Render(p, s.currentValue, s.isDropdownHidden).display == Render(p, st.currentValue, st.isDropdownHidden).display
  {
    var s := Run(p, st, es);
    ControlledValueWins(p, s.currentValue, st.currentValue, s.isDropdownHidden);
  }

  /** A render with neither `value` nor `defaultValue` shows the placeholder, flagged, with the panel hidden. */
  lemma InitialShowsPlaceholder(p: Props, ph: string)
    requires !Present(p.value) && !Present(p.defaultValue) && p.placeholder == Some(ph)
    ensures var s := Initial(p.defaultValue);
            var view := Render(p, s.currentValue, s.isDropdownHidden);
            view.display == ph && view.showingPlaceholder && view.dropdownHidden
  {
  }

  /**
   * Placeholder "123" and one Option (1, "1"): the input shows "123" with the
   * panel hidden; a trigger click opens it; a click on the Option closes it and
   * the input shows "1".
   */
  lemma PlaceholderThenPickScenario()
    ensures var o := OptionDesc(Num(1), "1", None, false);
            var p := Props(None, None, false, Some("123"), None, None, false, false, [o]);
            var s0 := Initial(None);
            var s1 := Run(p, s0, [Trigger]);
            var s2 := Run(p, s0, [Trigger, Pick(o)]);
            Render(p, s0.currentValue, s0.isDropdownHidden).display == "123" && s0.isDropdownHidden &&
            !s1.isDropdownHidden &&
            s2.isDropdownHidden && Render(p, s2.currentValue, s2.isDropdownHidden).display == "1"
  {
    var o := OptionDesc(Num(1), "1", None, false);
    var p := Props(None, None, false, Some("123"), None, None, false, false, [o]);
    assert [Trigger, Pick(o)] == [Trigger] + [Pick(o)];
    ClosedAfterCommit(p, Initial(None), [Trigger], o);
  }

  /**
   * Two Options 1 and 2 and an observer: picking the first, then reopening and
   * picking the second, shows "1" then "2" and calls `onChange` with 1 then 2.
   */
  lemma TwoPicksScenario()
    ensures var o1 := OptionDesc(Num(1), "1", None, false);
            var o2 := OptionDesc(Num(2), "2", None, false);
            var p := Props(None, None, false, None, None, None, false, true, [o1, o2]);
            var s0 := Initial(None);
            var s1 := Run(p, s0, [Trigger, Pick(o1)]);
            var s2 := Run(p, s0, [Trigger, Pick(o1), Trigger, Pick(o2)]);
            Render(p, s1.currentValue, s1.isDropdownHidden).display == "1" &&
            Render(p, s2.currentValue, s2.isDropdownHidden).display == "2" &&
            RunCalls(p, s0, [Trigger, Pick(o1), Trigger, Pick(o2)]) == [Num(1), Num(2)]
  {
    var o1 := OptionDesc(Num(1), "1", None, false);
    var o2 := OptionDesc(Num(2), "2", None, false);
    var p := Props(None, None, false, None, None, None, false, true, [o1, o2]);
    var es := [Trigger, Pick(o1), Trigger, Pick(o2)];
    assert [Trigger, Pick(o1)] == [Trigger] + [Pick(o1)];
    assert es == [Trigger, Pick(o1), Trigger] + [Pick(o2)];
    ClosedAfterCommit(p, Initial(None), [Trigger], o1);
    ClosedAfterCommit(p, Initial(None), [Trigger, Pick(o1), Trigger], o2);
    UniqueLabelLookup(Num(1), p.options, 0);
    UniqueLabelLookup(Num(2), p.options, 1);
    OnChangeOncePerCommit(p, Initial(None), es);
    assert Committed(es[3..]) == [Num(2)];
    assert Committed(es[2..]) == [Num(2)];
    assert Committed(es[1..]) == [Num(1), Num(2)];
  }
}
