/**
 * The `Select.Option` leaf, the selection context it reads, and the lookup of an
 * option's label by value over the Select's children.
 *
 * The children of a Select are an explicit ordered sequence of option
 * descriptors; the React tree traversal that produces them is not modelled.
 */
module Options {
  import opened Values

  /** The props of one `Select.Option` child. */
  datatype OptionDesc = OptionDesc(value: Value, children: string, labelProp: Option<string>, isDisabled: bool)

  /** `label || children`: the `label` prop (here `labelProp`) when it is a non-empty string, the children text otherwise. */
  function Caption(o: OptionDesc): (r: string)
    ensures PresentText(o.labelProp) ==> Some(r) == o.labelProp
    ensures !PresentText(o.labelProp) ==> r == o.children
  {
    if PresentText(o.labelProp) then o.labelProp.value else o.children
  }

  /** Index `i` holds the last option of `opts` whose value is `v`. */
  predicate IsLastMatch(v: Value, opts: seq<OptionDesc>, i: int) {
    0 <= i < |opts| && opts[i].value == v &&
    forall j :: i < j < |opts| ==> opts[j].value != v
  }

  /**
   * The label the `forEach` loop leaves behind after visiting every option: the
   * caption of the last option that matches, `None` when none does.
   */
  function LabelLookup(v: Value, opts: seq<OptionDesc>): Option<string>
  {
    if opts == [] then None
    else if opts[|opts| - 1].value == v then Some(Caption(opts[|opts| - 1]))
    else LabelLookup(v, opts[..|opts| - 1])
  }

  /** Label lookup yields nothing exactly when no option has the value, and otherwise the last match's caption. */
  lemma {:induction false} LabelLookupSpec(v: Value, opts: seq<OptionDesc>)
    ensures LabelLookup(v, opts).None? <==> forall i :: 0 <= i < |opts| ==> opts[i].value != v
    ensures forall i :: IsLastMatch(v, opts, i) ==> LabelLookup(v, opts) == Some(Caption(opts[i]))
    ensures LabelLookup(v, opts).Some? ==>
              exists i :: IsLastMatch(v, opts, i) && LabelLookup(v, opts) == Some(Caption(opts[i]))
  {
    if opts != [] {
      var n := |opts| - 1;
      var init := opts[..n];
      LabelLookupSpec(v, init);
      assert forall i :: 0 <= i < n ==> init[i] == opts[i];
      if opts[n].value == v {
        assert IsLastMatch(v, opts, n);
      } else {
        forall i | IsLastMatch(v, opts, i) ensures IsLastMatch(v, init, i) {
        }
        if LabelLookup(v, opts).Some? {
          var i :| IsLastMatch(v, init, i) && LabelLookup(v, init) == Some(Caption(init[i]));
          assert IsLastMatch(v, opts, i);
        }
      }
    }
  }

  /** When option values are pairwise distinct, the lookup finds the one option carrying the value. */
  lemma UniqueLabelLookup(v: Value, opts: seq<OptionDesc>, i: int)
    requires forall j, k :: 0 <= j < k < |opts| ==> opts[j].value != opts[k].value
    requires 0 <= i < |opts| && opts[i].value == v
    ensures LabelLookup(v, opts) == Some(Caption(opts[i]))
  {
    assert IsLastMatch(v, opts, i);
    LabelLookupSpec(v, opts);
  }

  /** Two options sharing a value: the later one's caption wins. */
  lemma LastDuplicateWins()
    ensures LabelLookup(Num(1), [OptionDesc(Num(1), "first", None, false),
                                 OptionDesc(Num(1), "second", None, false)]) == Some("second")
  {
  }

  /** An empty label falls back to the option's children text. */
  lemma EmptyLabelFallsBack()
    ensures LabelLookup(Str("nz"), [OptionDesc(Str("nz"), "New Zealand", Some(""), false)]) == Some("New Zealand")
  {
  }

  /**
   * `getLabelFromOptionChildren`: visits the options in order and overwrites the
   * found label with the caption of every option whose value is `v`.
   */
  method GetLabelFromOptionChildren(v: Value, opts: seq<OptionDesc>) returns (found: Option<string>)
    ensures found == LabelLookup(v, opts)
    ensures found.None? <==> forall i :: 0 <= i < |opts| ==> opts[i].value != v
    ensures forall i :: IsLastMatch(v, opts, i) ==> found == Some(Caption(opts[i]))
  {
    found := None;
    var i := 0;
    while i < |opts|
      invariant 0 <= i <= |opts|
      invariant found == LabelLookup(v, opts[..i])
    {
      if opts[i].value == v {
        found := Some(Caption(opts[i]));
      }
      assert opts[..i + 1][..i] == opts[..i];
      i := i + 1;
    }
    assert opts[..|opts|] == opts;
    LabelLookupSpec(v, opts);
  }

  /** What `SelectContext` carries to each Option: the Select's effective value (its commit callback is the Select's `HandleSelectOption`). */
  datatype SelectContextValue = SelectContextValue(value: Option<Value>)

  /** A hook result: the context, or the programming error thrown outside a Select. */
  datatype Result<T> = Ok(value: T) | Err(message: string)

  const OutsideContextMessage: string := "Must be used within a SelectContext"

  /** `useSelectContext`: fails fast when no Select provides a context. */
  function UseSelectContext(ctx: Option<SelectContextValue>): (r: Result<SelectContextValue>)
    ensures r.Ok? <==> ctx.Some?
    ensures r.Ok? ==> ctx == Some(r.value)
    ensures r.Err? ==> r.message == OutsideContextMessage
  {
    match ctx
    case None => Err(OutsideContextMessage)
    case Some(c) => Ok(c)
  }

  /** An Option is selected when its own value is strictly equal to the context's value. */
  predicate IsSelected(ctx: Option<SelectContextValue>, o: OptionDesc)
    requires UseSelectContext(ctx).Ok?
  {
    UseSelectContext(ctx).value.value == Some(o.value)
  }

  /** The value a click on the Option hands to `onSelectOption`, or `None` when the Option is disabled. */
  function ClickedValue(ctx: Option<SelectContextValue>, o: OptionDesc): (r: Option<Value>)
    requires UseSelectContext(ctx).Ok?
    ensures r.None? <==> o.isDisabled
    ensures r.Some? ==> r.value == o.value
  {
    if o.isDisabled then None else Some(o.value)
  }

  /** Whatever the context holds, an Option is selected exactly when its value is the context's value. */
  lemma SelectedIffSameValue(v: Option<Value>, o: OptionDesc)
    ensures IsSelected(Some(SelectContextValue(v)), o) <==> v == Some(o.value)
  {
  }

  /** With distinct option values and a context value taken from an option, exactly that option is selected. */
  lemma {:induction false} ExactlyOneSelected(opts: seq<OptionDesc>, i: int)
    requires forall j, k :: 0 <= j < k < |opts| ==> opts[j].value != opts[k].value
    requires 0 <= i < |opts|
    ensures forall j :: 0 <= j < |opts| ==>
              (IsSelected(Some(SelectContextValue(Some(opts[i].value))), opts[j]) <==> j == i)
  {
    forall j | 0 <= j < |opts|
      ensures IsSelected(Some(SelectContextValue(Some(opts[i].value))), opts[j]) <==> j == i
    {
      if j < i {
        assert opts[j].value != opts[i].value;
      } else if i < j {
        assert opts[i].value != opts[j].value;
      }
    }
  }
}
