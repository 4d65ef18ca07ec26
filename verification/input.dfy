/**
 The `Input` component: a labelled text field with an optional hint and
 an optional error message. Styling (class names) is not modelled; the
 opaque id from `useId` is the parameter `auto`.
 */
module Input {
  import opened Js
  import AriaIds
  import FormField

  /** The props the component reads; any other attribute is passed through. */
  datatype InputProps = InputProps(
    id: Option<string>,
    labelText: string,
    hint: Option<string>,
    error: Option<string>,
    required: bool,
    disabled: bool,
    inputType: Option<string>)

  datatype InputElement = InputElement(
    domId: string,
    inputType: string,
    required: bool,
    disabled: bool,
    ariaInvalid: bool,
    describedBy: Option<string>)

  datatype InputView = InputView(
    fieldLabel: FormField.Label,
    input: InputElement,
    hintBlock: Option<AriaIds.TextBlock>,
    errorBlock: Option<AriaIds.TextBlock>)

  const IdPrefix: string := "input-"
  const DefaultType: string := "text"

  /** What the component renders. */
  function Render(p: InputProps, auto: string): (v: InputView)
    ensures p.id.Some? ==> v.input.domId == p.id.value
    ensures p.id.None? ==> v.input.domId == IdPrefix + auto
    ensures v.fieldLabel.htmlFor == v.input.domId
    ensures v.fieldLabel.requiredMark == p.required && v.input.required == p.required
    ensures v.input.disabled == p.disabled
    ensures p.inputType.None? ==> v.input.inputType == DefaultType
    ensures p.inputType.Some? ==> v.input.inputType == p.inputType.value
    ensures v.input.ariaInvalid <==> Truthy(p.error)
    ensures v.errorBlock.Some? <==> v.input.ariaInvalid
    ensures v.errorBlock.Some? ==>
      v.errorBlock.value == AriaIds.TextBlock(v.input.domId + "-error", Some("alert"), p.error.value)
    ensures v.hintBlock.Some? <==> Truthy(p.hint)
    ensures v.hintBlock.Some? ==>
      v.hintBlock.value == AriaIds.TextBlock(v.input.domId + "-hint", None, p.hint.value)
    ensures v.input.describedBy.None? <==> !Truthy(p.hint) && !Truthy(p.error)
  {
    var ids := FormField.DeriveIds(IdPrefix, p.id, auto);
    InputView(
      FormField.RenderLabel(ids, p.labelText, p.required),
      InputElement(ids.control, p.inputType.GetOr(DefaultType), p.required, p.disabled,
                   Truthy(p.error), FormField.FieldDescribedBy(ids, p.hint, p.error)),
      FormField.HintBlock(ids, p.hint),
      FormField.ErrorBlock(ids, p.error))
  }

  /** `aria-describedby` names exactly the rendered hint and error blocks,
      hint first, when the ids involved have no whitespace. */
  lemma DescribedByNamesRenderedBlocks(p: InputProps, auto: string)
    requires p.id.Some? ==> AriaIds.WhitespaceFree(p.id.value)
    requires p.id.None? ==> AriaIds.WhitespaceFree(auto)
    ensures var v := Render(p, auto);
      && AriaIds.Referenced(v.input.describedBy) == AriaIds.RenderedIds([v.hintBlock, v.errorBlock])
      && (v.input.domId + "-hint" in AriaIds.Referenced(v.input.describedBy) <==> Truthy(p.hint))
      && (v.input.domId + "-error" in AriaIds.Referenced(v.input.describedBy) <==> Truthy(p.error))
  {
    var ids := FormField.DeriveIds(IdPrefix, p.id, auto);
    FormField.ControlWhitespaceFree(IdPrefix, p.id, auto);
    FormField.FieldDescribedByMatchesBlocks(ids, p.hint, p.error);
  }

  /** The error case of the component's tests: an error and no hint make
      the field invalid, with one `alert` and a describedby that is the
      error block's id. */
  lemma ErrorOnlyScenario(p: InputProps, auto: string)
    requires p.id.None? && p.hint.None?
    requires p.error == Some("Invalid email")
    requires AriaIds.WhitespaceFree(auto)
    ensures var v := Render(p, auto);
      && v.input.ariaInvalid
      && v.errorBlock.Some? && v.errorBlock.value.role == Some("alert")
      && AriaIds.Referenced(v.input.describedBy) == ["input-" + auto + "-error"]
  {
    DescribedByNamesRenderedBlocks(p, auto);
    var v := Render(p, auto);
    assert [v.hintBlock, v.errorBlock][1..] == [v.errorBlock];
    assert [v.errorBlock][1..] == [];
    assert AriaIds.RenderedIds([v.errorBlock]) == [v.errorBlock.value.domId];
    assert AriaIds.RenderedIds([v.hintBlock, v.errorBlock]) == AriaIds.RenderedIds([v.errorBlock]);
  }
}
