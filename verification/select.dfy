/**
 The `Select` component: a labelled native `<select>` with an optional
 placeholder option, hint and error message. Styling is not modelled; the
 opaque id from `useId` is the parameter `auto`.
 */
module Select {
  import opened Js
  import AriaIds
  import FormField

  /** An entry of the `options` prop; an absent `disabled` is `false`. */
  datatype SelectOption = SelectOption(value: string, text: string, disabled: bool)

  /** A rendered `<option>`. */
  datatype OptionElement = OptionElement(value: string, text: string, disabled: bool, hidden: bool)

  datatype SelectProps = SelectProps(
    id: Option<string>,
    labelText: string,
    options: seq<SelectOption>,
    hint: Option<string>,
    error: Option<string>,
    required: bool,
    disabled: bool,
    placeholder: Option<string>)

  datatype SelectElement = SelectElement(
    domId: string,
    required: bool,
    disabled: bool,
    ariaInvalid: bool,
    describedBy: Option<string>,
    options: seq<OptionElement>)

  datatype SelectView = SelectView(
    fieldLabel: FormField.Label,
    select: SelectElement,
    hintBlock: Option<AriaIds.TextBlock>,
    errorBlock: Option<AriaIds.TextBlock>)

  const IdPrefix: string := "select-"

  function RenderOption(o: SelectOption): OptionElement {
    OptionElement(o.value, o.text, o.disabled, false)
  }

  /** The placeholder option: empty value, disabled and hidden, so it shows
      while nothing is chosen but cannot be chosen. */
  function PlaceholderOption(text: string): OptionElement {
    OptionElement("", text, true, true)
  }

  /** The `<option>` children: the placeholder when it is truthy, then one
      option per entry, in order. */
  function RenderOptions(placeholder: Option<string>, options: seq<SelectOption>): (r: seq<OptionElement>)
    ensures Truthy(placeholder) ==>
      && |r| == |options| + 1
      && r[0] == PlaceholderOption(placeholder.value)
      && forall i :: 0 <= i < |options| ==> r[i + 1] == RenderOption(options[i])
    ensures !Truthy(placeholder) ==>
      && |r| == |options|
      && forall i :: 0 <= i < |options| ==> r[i] == RenderOption(options[i])
  {
    (if Truthy(placeholder) then [PlaceholderOption(placeholder.value)] else [])
      + seq(|options|, i requires 0 <= i < |options| => RenderOption(options[i]))
  }

  /** Reads the entries back from rendered options, skipping a leading
      placeholder. */
  function SourceOptions(rendered: seq<OptionElement>, hasPlaceholder: bool): seq<SelectOption>
    requires hasPlaceholder ==> |rendered| > 0
  {
    var entries := if hasPlaceholder then rendered[1..] else rendered;
    seq(|entries|, i requires 0 <= i < |entries| => SelectOption(entries[i].value, entries[i].text, entries[i].disabled))
  }

  /** Rendering loses nothing: each entry's value, text and disabled flag
      appear unchanged, in order, after the placeholder if there is one. */
  lemma OptionsRoundTrip(placeholder: Option<string>, options: seq<SelectOption>)
    ensures Truthy(placeholder) ==> |RenderOptions(placeholder, options)| > 0
    ensures SourceOptions(RenderOptions(placeholder, options), Truthy(placeholder)) == options
  {
  }

  /** Apart from the placeholder, no rendered option is hidden, and only
      entries marked disabled are disabled. */
  lemma OnlyPlaceholderHidden(placeholder: Option<string>, options: seq<SelectOption>)
    ensures var r := RenderOptions(placeholder, options);
      forall i :: 0 <= i < |r| ==>
        (r[i].hidden <==> (Truthy(placeholder) && i == 0))
  {
  }

  /** What the component renders. */
  function Render(p: SelectProps, auto: string): (v: SelectView)
    ensures p.id.Some? ==> v.select.domId == p.id.value
    ensures p.id.None? ==> v.select.domId == IdPrefix + auto
    ensures v.fieldLabel.htmlFor == v.select.domId
    ensures v.fieldLabel.requiredMark == p.required && v.select.required == p.required
    ensures v.select.disabled == p.disabled
    ensures v.select.ariaInvalid <==> Truthy(p.error)
    ensures v.errorBlock.Some? <==> v.select.ariaInvalid
    ensures v.errorBlock.Some? ==>
      v.errorBlock.value == AriaIds.TextBlock(v.select.domId + "-error", Some("alert"), p.error.value)
    ensures v.hintBlock.Some? <==> Truthy(p.hint)
    ensures v.hintBlock.Some? ==>
      v.hintBlock.value == AriaIds.TextBlock(v.select.domId + "-hint", None, p.hint.value)
    ensures v.select.describedBy.None? <==> !Truthy(p.hint) && !Truthy(p.error)
    ensures v.select.options == RenderOptions(p.placeholder, p.options)
  {
    var ids := FormField.DeriveIds(IdPrefix, p.id, auto);
    SelectView(
      FormField.RenderLabel(ids, p.labelText, p.required),
      SelectElement(ids.control, p.required, p.disabled, Truthy(p.error),
                    FormField.FieldDescribedBy(ids, p.hint, p.error),
                    RenderOptions(p.placeholder, p.options)),
      FormField.HintBlock(ids, p.hint),
      FormField.ErrorBlock(ids, p.error))
  }

  /** `aria-describedby` names exactly the rendered hint and error blocks,
      hint first, when the ids involved have no whitespace. */
  lemma DescribedByNamesRenderedBlocks(p: SelectProps, auto: string)
    requires p.id.Some? ==> AriaIds.WhitespaceFree(p.id.value)
    requires p.id.None? ==> AriaIds.WhitespaceFree(auto)
    ensures var v := Render(p, auto);
      && AriaIds.Referenced(v.select.describedBy) == AriaIds.RenderedIds([v.hintBlock, v.errorBlock])
      && (v.select.domId + "-hint" in AriaIds.Referenced(v.select.describedBy) <==> Truthy(p.hint))
      && (v.select.domId + "-error" in AriaIds.Referenced(v.select.describedBy) <==> Truthy(p.error))
  {
    var ids := FormField.DeriveIds(IdPrefix, p.id, auto);
    FormField.ControlWhitespaceFree(IdPrefix, p.id, auto);
    FormField.FieldDescribedByMatchesBlocks(ids, p.hint, p.error);
  }
}
