# ui-kit interaction logic in Dafny

A model of the deterministic logic inside a small React component library.
It covers three components:

- **Toast** (`ToastProvider` and `ToastCard`). This is a notification queue
  with three parts: an id counter, an ordered toast list and a map from
  toast id to its pending auto-dismiss timer. The queue is one immutable
  `Queue` value. `toast(...)` is `Toast.Enqueue`, and `dismiss(id)` is
  `Toast.Dismiss`. A timer firing is the event `TimerFired`, handled exactly
  like `dismiss`. Each card's role and ARIA references are derived from its
  item.
- **Tabs**. The component's one piece of state is `selectedId`. Click and
  key handlers are pure functions from the props and `selectedId` to a
  `Reaction`: the next `selectedId`, the id passed to `onChange`, the tab
  whose button `focus()` is called on, and whether the key event's default
  action was prevented. `Tabs.Render` derives `aria-selected`, `tabIndex`
  and panel `hidden` from `activeId ?? selectedId`. Keyboard navigation
  picks its target by index alone and does not skip disabled tabs
  (`Tabs.ArrowRightReachesDisabledTab`); the only disabled checks are on
  the originating tab's own click and keydown handlers. No handler raises
  an error for an unknown tab id, and dismissing an unknown toast id is a
  no-op.
- **Input** and **Select**. These derive a control id, hint and error ids,
  `aria-describedby` and `aria-invalid`. Select also derives its `<option>`
  list. The id logic the two share lives in `FormField`.

`AriaIds` holds the one string concept all three use: an ID-reference
attribute built as `ids.length ? ids.join(' ') : undefined`. A browser
reads such an attribute back by splitting it on ASCII whitespace and
dropping empty pieces (HTML Living Standard, "split a string on ASCII
whitespace"). `AriaIds.Tokens` models that reading. The main theorem,
`AriaIds.ReadBack`, says the read-back ids are exactly the joined list.
With it, each component's `aria-describedby` is proved to name exactly the
blocks the component renders, in order.

Modules: `Js` (`undefined`, `??`, string truthiness), `AriaIds`, `Toast`,
`Tabs`, `FormField`, `Input`, `Select`. There is one module per file.

## Model

| member | source | states |
|---|---|---|
| AriaIds.IdList | src/components/Toast/Toast.tsx:161 | The attribute is absent exactly when the id list is empty. |
| AriaIds.TokensOfJoin | src/components/Input/Input.tsx:52-54 | Joining non-empty, whitespace-free ids with a space and splitting the result as a browser does gives back the same ids, in order. |
| AriaIds.ReadBack | src/components/Select/Select.tsx:59-61 | `ids.length ? ids.join(' ') : undefined` names exactly `ids` as a token list, and is undefined iff `ids` is empty. |
| AriaIds.ShowIf | src/components/Input/Input.tsx:58-68 | A conditional block is rendered iff its text is truthy (defined and non-empty), and it then carries that text and id. |
| AriaIds.DescribedBy | src/components/Input/Input.tsx:25-27 | The two-candidate describedby is undefined iff neither text is truthy. |
| AriaIds.DescribedByMatchesRendered | src/components/Toast/Toast.tsx:158-161 | The describedby built from two optional texts names the first id iff the first text is truthy, then the second iff the second is truthy. These are exactly the ids of the blocks rendered for the same texts. |
| Toast.TimerDelay | src/components/Toast/Toast.tsx:72-73 | Duration 0 schedules no timer. An absent duration gives 4000 ms. Any other duration is used as given. A scheduled delay is never 0, so `if (ms)` is "a delay exists". |
| Toast.Enqueue | src/components/Toast/Toast.tsx:60-79 | The counter is pre-incremented and the new id is counter+1. The item is appended after the unchanged earlier toasts and copies the options, with variant defaulting to info. A timer entry for exactly the new id is added iff a delay exists, with a matching schedule effect. |
| Toast.RemoveId | src/components/Toast/Toast.tsx:57 | The filtered list holds exactly the toasts whose id differs from the dismissed one. |
| Toast.Dismiss | src/components/Toast/Toast.tsx:51-58 | Only the dismissed id leaves the timer map, and every other timer is unchanged. A cancel effect is emitted iff a timer was pending. The toast list is filtered and the counter is untouched. |
| Toast.RemoveIdAppend | src/components/Toast/Toast.tsx:57 | Filtering distributes over concatenation, so the survivors keep their relative order. |
| Toast.RemoveIdAbsent | src/components/Toast/Toast.tsx:57 | Filtering by an id no toast carries returns the list unchanged. |
| Toast.RemoveIdIdempotent | src/components/Toast/Toast.tsx:57 | Filtering twice by the same id equals filtering once. |
| Toast.RemoveIdCommutes | src/components/Toast/Toast.tsx:57 | Dismissing two ids in either order gives the same list. |
| Toast.Step | src/components/Toast/Toast.tsx:120-121 | The card's mouse-enter and focus handlers are its close handler: like the close button and a timer firing, each behaves exactly as `dismiss(id)`. Neither pauses the timer. |
| Toast.EnqueueValid | src/components/Toast/Toast.tsx:62-76 | On a valid queue, `toast` keeps ids increasing and within the counter. The new id exceeds every listed id. A timer entry exists for it iff the duration is not 0. |
| Toast.DismissValid | src/components/Toast/Toast.tsx:51-58 | `dismiss` keeps a valid queue valid: ids stay increasing, and every pending timer belongs to a listed toast. |
| Toast.RunValid | src/components/Toast/Toast.tsx:47-79 | Every queue reachable by any sequence of calls and timer firings is valid, and the counter never decreases. |
| Toast.IssuedIdsConsecutive | src/components/Toast/Toast.tsx:48 | Over any history, the i-th `toast` call gets id counter+1+i, so ids start at 1 on a fresh provider and are never reused, whatever was dismissed in between. |
| Toast.TimerFiredDismisses | src/components/Toast/Toast.tsx:74 | After a timer fires for x, no toast with id x and no timer for x remain. Other toasts keep their order, other timers are untouched, and a later `dismiss(x)` changes nothing. |
| Toast.DismissAbsent | src/components/Toast/Toast.tsx:51-58 | Dismissing an id that is absent or already dismissed leaves the queue unchanged and cancels nothing. |
| Toast.DismissIdempotent | src/components/Toast/Toast.test.tsx:81-91 | Dismissing the same toast twice is the same as dismissing it once. |
| Toast.PersistentToastStays | src/components/Toast/Toast.tsx:72-76 | A toast without a pending timer, such as one with duration 0, survives every possible event except a dismiss of its own id. |
| Toast.AutoDismissScenario | src/components/Toast/Toast.test.tsx:60-79 | A 3000 ms toast on a fresh provider gets id 1 and a 3000 ms timer. When that timer fires, the list and the timer map are empty. A toast with duration 0 gets no timer and no schedule effect. |
| Toast.RoleOf | src/components/Toast/Toast.tsx:109 | The role is `alert` iff the variant is error, and `status` otherwise. |
| Toast.EnqueuedRole | src/components/Toast/Toast.tsx:68 | A toast enqueued without a variant defaults to info, so its card has role `status`. Its card is an `alert` exactly when the caller asked for the error variant. |
| Toast.BuildDescribedBy | src/components/Toast/Toast.tsx:153-162 | The card's describedby is undefined iff neither description nor message is truthy. |
| Toast.CardReferencesRenderedBlocks | src/components/Toast/Toast.tsx:118-138 | The card's describedby names the description block and then the message block, each exactly when it is rendered. `aria-labelledby` is the title block's id exactly when the title is rendered. |
| Tabs.InitialSelection | src/components/Tabs/Tabs.tsx:25-27 | The initial selection is `activeId` if defined. Otherwise it is the first item's id even if that item is disabled, and undefined when there are no items. |
| Tabs.SelectTab | src/components/Tabs/Tabs.tsx:30-36 | When `onChange` is present, it is called with the id and the state is unchanged. Otherwise the state becomes the id and nothing is reported. |
| Tabs.Click | src/components/Tabs/Tabs.tsx:106 | A click on a disabled tab does nothing. A click on an enabled tab behaves as `handleTabClick(id)`. |
| Tabs.NavTarget | src/components/Tabs/Tabs.tsx:38-57 | ArrowRight gives (i+1) mod n and ArrowLeft gives (i-1+n) mod n. Home gives 0 and End gives n-1. Any other key gives nothing. Every target is in [0, n). |
| Tabs.KeyDown | src/components/Tabs/Tabs.tsx:38-67 | A keydown on a disabled tab, or with an unhandled key, does nothing. Otherwise the default action is prevented, the target tab is selected as a click would select it, and focus is requested on the target's button. |
| Tabs.SyncActive | src/components/Tabs/Tabs.tsx:70-74 | A defined `activeId` overwrites `selectedId`. An undefined one leaves it unchanged. |
| Tabs.Render | src/components/Tabs/Tabs.tsx:77-131 | Empty items render nothing. Otherwise there is one tab and one panel per item. `aria-selected` holds iff the item is the current id. `tabIndex` is 0 for the current tab and -1 for the rest. A panel is hidden iff it is not current. Tab and panel reference each other. |
| Tabs.ExactlyOneTabShown | src/components/Tabs/Tabs.test.tsx:122-133 | With unique ids, the current tab is the only one with `aria-selected` and `tabIndex` 0, and its panel is the only visible one. |
| Tabs.NoTabShown | src/components/Tabs/Tabs.tsx:81 | If the current id matches no tab, no tab is selected and every panel is hidden. |
| Tabs.FirstTabShownInitially | src/components/Tabs/Tabs.test.tsx:27-30 | Without `activeId`, the first tab is shown after mounting. |
| Tabs.UncontrolledClickShowsTab | src/components/Tabs/Tabs.test.tsx:37-53 | Without `onChange` or `activeId`, clicking an enabled tab makes it the only selected tab. |
| Tabs.ControlledSelectionWaitsForOwner | src/components/Tabs/Tabs.test.tsx:87-97 | With `onChange`, clicks and keys report the id and leave the state alone. Once the owner passes a new `activeId`, that id is shown. |
| Tabs.ActiveIdPinsShownTab | src/components/Tabs/Tabs.tsx:81 | While `activeId` is defined, no click or key changes the shown tab, whether or not `onChange` is present. |
| Tabs.ArrowLeftUndoesArrowRight | src/components/Tabs/Tabs.tsx:43-48 | ArrowLeft from the ArrowRight target returns to the starting index. |
| Tabs.RightTimesAdvances | src/components/Tabs/Tabs.tsx:43-45 | Pressing ArrowRight k times from i lands on (i+k) mod n. |
| Tabs.RightCycleReturns | src/components/Tabs/Tabs.tsx:43-45 | Pressing ArrowRight n times returns to the start. |
| Tabs.KeyTargetIgnoresDisabled | src/components/Tabs/Tabs.tsx:60-61 | The key reaction does not depend on the disabled flags of any tab except the originating one. |
| Tabs.ArrowRightReachesDisabledTab | src/components/Tabs/Tabs.tsx:107 | On the test items, ArrowRight from "two" selects the disabled "three" and requests focus on it. A key pressed on "three" itself is ignored. |
| FormField.DeriveIds | src/components/Input/Input.tsx:21-23 | The control id is the supplied id (an empty one included) or the prefix plus the auto id. The hint and error ids are that id with `-hint` and `-error` appended. |
| FormField.DerivedIdsDistinct | src/components/Select/Select.tsx:29-31 | The control, hint and error ids are pairwise different. Removing the suffix from either derived id gives back the control id. |
| FormField.FieldDescribedBy | src/components/Select/Select.tsx:33-35 | A field's describedby is undefined iff neither hint nor error is truthy. |
| FormField.FieldDescribedByMatchesBlocks | src/components/Input/Input.tsx:25-27 | For a whitespace-free control id, describedby names the hint id iff the hint is truthy and the error id iff the error is truthy, hint first. These are exactly the ids of the rendered hint and error blocks. |
| Input.Render | src/components/Input/Input.tsx:17-68 | The label targets the input id. `type` defaults to text. `aria-invalid` holds iff the error is truthy, and iff the `alert` error block with the error id is rendered. The hint block is rendered iff the hint is truthy. describedby is undefined iff neither is truthy. |
| Input.DescribedByNamesRenderedBlocks | src/components/Input/Input.tsx:52-68 | The input's describedby names exactly the rendered hint and error blocks, in order. |
| Input.ErrorOnlyScenario | src/components/Input/Input.test.tsx:45-53 | An error without a hint marks the input invalid, renders an `alert`, and makes describedby exactly the `-error` id. |
| Select.RenderOptions | src/components/Select/Select.tsx:64-73 | When the placeholder is truthy, the list starts with one `value=""` option that is disabled and hidden. The list then has one option per entry, in order, with value and disabled unchanged. Without a placeholder, it is exactly the mapped entries. |
| Select.OptionsRoundTrip | src/components/Select/Select.tsx:69-73 | The entries can be read back unchanged from the rendered options after skipping the placeholder. |
| Select.OnlyPlaceholderHidden | src/components/Select/Select.tsx:64-68 | A rendered option is hidden iff it is the placeholder. |
| Select.Render | src/components/Select/Select.tsx:28-85 | The label targets the select id. `aria-invalid` holds iff the error is truthy, and iff the `alert` error block is rendered. The hint block is rendered iff the hint is truthy. describedby is undefined iff neither is truthy. The options are `RenderOptions`. |
| Select.DescribedByNamesRenderedBlocks | src/components/Select/Select.tsx:59-61 | The select's describedby names exactly the rendered hint and error blocks, in order. |

## Left out

- Modal: no model. It is DOM effect plumbing: a global Escape listener, the body scroll lock, focus of the first focusable element, and focus restore. It has no Tab-wrap focus trap to model.
- Button: no model, because it only concatenates class names.
- React machinery: no model of hook scheduling, re-rendering, portals, context or CSS modules. `useToast` throwing outside a provider is context plumbing and is not modelled. `useId` values are opaque string parameters. State updates (`setToasts`) are applied at once rather than batched.
- Real timers: `setTimeout`/`clearTimeout` and wall-clock time are not modelled. A pending timer is recorded by its delay, and firing is the abstract event `TimerFired`. Browser timer handles are always positive, so the `if (t)` guard in `dismiss` is modelled as "a timer entry exists".
- Durations are integers. NaN or fractional durations are not modelled. A negative duration is truthy in JavaScript and schedules a timer, as in the source.
- There is no teardown. The source never clears pending timers when the provider unmounts, so no cancel-all is modelled.
- Tab focus: the model records only that `focus()` is requested on the target's button. When the target is disabled the browser ignores that request, so keyboard focus stays on the originating tab, which then has `tabIndex` -1 while the disabled target is the selected tab with `tabIndex` 0; real DOM focus is not modelled. Focusing is the effect "focus the button of tab id", with no model of selector lookup. The `#tab-…` selector may fail for ids that are not valid CSS identifiers; this is not modelled.
- Styling and static attributes are not modelled: class names, the tab list's `aria-label`/hint span, and panels' `tabIndex=0`.
- `{...rest}` spreads on Input and Select can override computed attributes. The model assumes callers do not pass the attributes the components compute.
- Input.DescribedByNamesRenderedBlocks: assumes the supplied id and the auto id contain no whitespace, because an id with a space would split into several tokens when read back.
- Select.DescribedByNamesRenderedBlocks: same whitespace assumption as for Input.
- Toast.CardReferencesRenderedBlocks: assumes the `useId` values contain no whitespace.
