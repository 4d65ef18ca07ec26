/**
 The id and ARIA wiring that `Input` and `Select` share: the control's id
 (the caller's `id`, or a prefix plus the opaque id `useId` produced), the
 ids of the hint and error blocks derived from it, the label, and the
 `aria-describedby` that names the hint then the error.
 */
module FormField {
  import opened Js
  import AriaIds

  datatype FieldIds = FieldIds(control: string, hint: string, error: string)

  /** `<label htmlFor=…>` with the required marker `*` when required. */
  datatype Label = Label(htmlFor: string, text: string, requiredMark: bool)

  const HintSuffix: string := "-hint"
  const ErrorSuffix: string := "-error"
  const AlertRole: string := "alert"

  /** `id ?? prefix + auto`, and the two ids derived from it. `??` keeps a
      supplied empty id. */
  function DeriveIds(prefix: string, id: Option<string>, auto: string): (r: FieldIds)
    ensures id.Some? ==> r.control == id.value
    ensures id.None? ==> r.control == prefix + auto
    ensures r.hint == r.control + HintSuffix
    ensures r.error == r.control + ErrorSuffix
  {
    var control := id.GetOr(prefix + auto);
    FieldIds(control, control + HintSuffix, control + ErrorSuffix)
  }

  /** The three ids are pairwise different, and both derived ids give the
      control id back when their suffix is removed. */
  lemma DerivedIdsDistinct(prefix: string, id: Option<string>, auto: string)
    ensures var r := DeriveIds(prefix, id, auto);
      && r.hint != r.error
      && r.hint != r.control
      && r.error != r.control
      && r.hint[..|r.hint| - |HintSuffix|] == r.control
      && r.error[..|r.error| - |ErrorSuffix|] == r.control
  {
  }

  function RenderLabel(ids: FieldIds, text: string, required: bool): (l: Label)
    ensures l.htmlFor == ids.control
  {
    Label(ids.control, text, required)
  }

  /** The hint block, rendered when the hint is truthy. */
  function HintBlock(ids: FieldIds, hint: Option<string>): Option<AriaIds.TextBlock> {
    AriaIds.ShowIf(ids.hint, None, hint)
  }

  /** The error block, an `alert`, rendered when the error is truthy. */
  function ErrorBlock(ids: FieldIds, error: Option<string>): Option<AriaIds.TextBlock> {
    AriaIds.ShowIf(ids.error, Some(AlertRole), error)
  }

  /** The control's `aria-describedby`. */
  function FieldDescribedBy(ids: FieldIds, hint: Option<string>, error: Option<string>): (r: Option<string>)
    ensures r.None? <==> !Truthy(hint) && !Truthy(error)
  {
    AriaIds.DescribedBy(ids.hint, hint, ids.error, error)
  }

  /** When the control id has no whitespace, `aria-describedby` names
      exactly the rendered hint and error blocks, hint first: the hint id
      iff the hint is truthy, the error id iff the error is truthy. */
  lemma FieldDescribedByMatchesBlocks(ids: FieldIds, hint: Option<string>, error: Option<string>)
    requires AriaIds.WhitespaceFree(ids.control)
    requires ids.hint == ids.control + HintSuffix && ids.error == ids.control + ErrorSuffix
    ensures var refs := AriaIds.Referenced(FieldDescribedBy(ids, hint, error));
      && refs == AriaIds.RenderedIds([HintBlock(ids, hint), ErrorBlock(ids, error)])
      && refs == AriaIds.CollectIds(ids.hint, hint, ids.error, error)
      && (ids.hint in refs <==> Truthy(hint))
      && (ids.error in refs <==> Truthy(error))
  {
    AriaIds.ConcatToken(ids.control, HintSuffix);
    AriaIds.ConcatToken(ids.control, ErrorSuffix);
    AriaIds.DescribedByMatchesRendered(ids.hint, hint, None, ids.error, error, Some(AlertRole));
    assert |ids.hint| != |ids.error|;
  }

  /** The control id is free of whitespace when the supplied id, or the
      prefix and the auto id, are. */
  lemma ControlWhitespaceFree(prefix: string, id: Option<string>, auto: string)
    requires id.Some? ==> AriaIds.WhitespaceFree(id.value)
    requires id.None? ==> AriaIds.WhitespaceFree(prefix) && AriaIds.WhitespaceFree(auto)
    ensures AriaIds.WhitespaceFree(DeriveIds(prefix, id, auto).control)
  {
  }
}
