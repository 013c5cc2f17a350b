/**
 * What a Select renders from its props and its internal value: the effective
 * value, the text of the read-only input, the placeholder flag, the context
 * handed to the Options, the dropdown panel's content and the helper text.
 */
module SelectView {
  import opened Values
  import opened Options

  /**
   * The props of a Select that the model reads. `hasOnChange` says whether an
   * `onChange` observer is given; `label` and `className` only feed markup.
   */
  datatype Props = Props(
    value: Option<Value>,
    defaultValue: Option<Value>,
    isDisabled: bool,
    placeholder: Option<string>,
    helperText: Option<string>,
    errorMessage: Option<string>,
    isLoadingOptions: bool,
    hasOnChange: bool,
    options: seq<OptionDesc>)

  /** `finalValue = value || currentValue`. */
  function FinalValue(p: Props, currentValue: Option<Value>): Option<Value>
  {
    Or(p.value, currentValue)
  }

  /** `finalValue ? getLabelFromOptionChildren(finalValue, children) : null`. */
  function CurrentValueLabel(p: Props, currentValue: Option<Value>): Option<string>
  {
    var f := FinalValue(p, currentValue);
    if Present(f) then LabelLookup(f.value, p.options) else None
  }

  /** `label ?? placeholder ?? ""`. */
  function LabelDisplay(lbl: Option<string>, placeholder: Option<string>): (r: string)
    ensures lbl.Some? ==> r == lbl.value
    ensures lbl.None? && placeholder.Some? ==> r == placeholder.value
    ensures lbl.None? && placeholder.None? ==> r == ""
  {
    match lbl
    case Some(l) => l
    case None =>
      match placeholder
      case Some(ph) => ph
      case None => ""
  }

  /** `currentValueLabelDisplay === placeholder`; an absent placeholder never equals a string. */
  predicate IsShowingPlaceholder(display: string, placeholder: Option<string>) {
    placeholder == Some(display)
  }

  /** What the dropdown panel holds; the panel is rendered whether or not it is hidden. */
  datatype PanelContent = Loading | Empty | Items

  /** `isLoading ? <Loading> : hasChildren ? children : <Empty>`. */
  function DropdownContent(isLoading: bool, childCount: nat): (r: PanelContent)
    ensures r == Loading <==> isLoading
    ensures r == Items <==> !isLoading && childCount > 0
    ensures r == Empty <==> !isLoading && childCount == 0
  {
    if isLoading then Loading else if childCount > 0 then Items else Empty
  }

  /**
   * The helper-text span: shown when `helperText || errorMessage` is truthy,
   * holding `errorMessage || helperText`.
   */
  function HelperText(helperText: Option<string>, errorMessage: Option<string>): (r: Option<string>)
    ensures r.Some? <==> PresentText(helperText) || PresentText(errorMessage)
    ensures r.Some? ==> r.value != ""
    ensures PresentText(errorMessage) ==> r == errorMessage
    ensures !PresentText(errorMessage) ==> r == (if PresentText(helperText) then helperText else None)
  {
    if PresentText(helperText) || PresentText(errorMessage) then
      Some(if PresentText(errorMessage) then errorMessage.value else helperText.value)
    else
      None
  }

  /** Everything a render of the Select exposes. */
  datatype View = View(
    display: string,
    showingPlaceholder: bool,
    context: SelectContextValue,
    dropdownHidden: bool,
    content: PanelContent,
    helper: Option<string>)

  /** One render of the Select for the given props and state. */
  function Render(p: Props, currentValue: Option<Value>, isDropdownHidden: bool): View
  {
    var display := LabelDisplay(CurrentValueLabel(p, currentValue), p.placeholder);
    View(
      display,
      IsShowingPlaceholder(display, p.placeholder),
      SelectContextValue(FinalValue(p, currentValue)),
      isDropdownHidden,
      DropdownContent(p.isLoadingOptions, |p.options|),
      HelperText(p.helperText, p.errorMessage))
  }

  /** The effective value is the external value when truthy, the internal one otherwise. */
  lemma FinalValueSpec(p: Props, currentValue: Option<Value>)
    ensures Present(p.value) ==> FinalValue(p, currentValue) == p.value
    ensures !Present(p.value) ==> FinalValue(p, currentValue) == currentValue
  {
  }

  /**
   * The input shows the caption of the last option whose value is the effective
   * value; with no truthy effective value, or no option carrying it, it shows the
   * placeholder, or nothing when there is none.
   */
  lemma {:induction false} DisplaySpec(p: Props, currentValue: Option<Value>, hidden: bool)
    ensures var f := FinalValue(p, currentValue);
            forall i :: Present(f) && IsLastMatch(f.value, p.options, i) ==>
              Render(p, currentValue, hidden).display == Caption(p.options[i])
    ensures var f := FinalValue(p, currentValue);
            (!Present(f) || forall i :: 0 <= i < |p.options| ==> p.options[i].value != f.value) ==>
              Render(p, currentValue, hidden).display == (if p.placeholder.Some? then p.placeholder.value else "") &&
              Render(p, currentValue, hidden).showingPlaceholder == p.placeholder.Some?
  {
    var f := FinalValue(p, currentValue);
    if Present(f) {
      LabelLookupSpec(f.value, p.options);
    }
  }

  /**
   * The placeholder flag is raised exactly when a placeholder is given and either
   * no label was found or the label's text is the placeholder's text.
   */
  lemma PlaceholderFlagSpec(lbl: Option<string>, placeholder: Option<string>)
    ensures IsShowingPlaceholder(LabelDisplay(lbl, placeholder), placeholder) <==>
            placeholder.Some? && (lbl.None? || lbl == placeholder)
  {
  }

  /** A truthy external value controls the render: the internal value has no effect on it. */
  lemma ControlledValueWins(p: Props, c1: Option<Value>, c2: Option<Value>, hidden: bool)
    requires Present(p.value)
    ensures Render(p, c1, hidden) == Render(p, c2, hidden)
    ensures Render(p, c1, hidden).context.value == p.value
  {
  }

  /**
   * A falsy value (0 or "") chosen internally marks its Option as selected in the
   * context, yet the input shows the placeholder because no label is looked up.
   */
  lemma FalsyValueShowsPlaceholder(p: Props, v: Value, o: OptionDesc, hidden: bool)
    requires !Present(p.value) && !Truthy(v) && o.value == v
    ensures Render(p, Some(v), hidden).display == (if p.placeholder.Some? then p.placeholder.value else "")
    ensures IsSelected(Some(Render(p, Some(v), hidden).context), o)
  {
  }

  /** The panel shows its loading indicator whatever the options, and the items only when not loading. */
  lemma PanelContentIndependentOfState(p: Props, c1: Option<Value>, c2: Option<Value>, h1: bool, h2: bool)
    ensures Render(p, c1, h1).content == Render(p, c2, h2).content
    ensures Render(p, c1, h1).content == Items ==> !p.isLoadingOptions && p.options != []
  {
  }
}
