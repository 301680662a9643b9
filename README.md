# AutoComplete selection and navigation model

This project models the logic behind PrimeReact's `AutoComplete` widget, with
the DOM and the rendering stripped away. Four parts are modelled:

- **Candidate list.** The suggestions the overlay shows, flattened when they
  are grouped. "Valid" options are non-empty, not disabled and not group
  headers. Searches find the first, last, next or previous valid option.
- **Selection model.** The value is a single option or, in multiple mode, a
  list of tokens. Tokens are appended under the `isSelected` and
  selection-limit guards, or removed by index. Every value change goes
  through `updateModel`, which drops a change notification that repeats the
  last recorded value. With `forceSelection`, typed text is matched against
  the suggestions.
- **Event handlers.** Keys on the input and on the token list, typing, the
  debounced search, focus, blur, clicks and the deferred hide.
- **Re-renders.** The host feeding back a new `value` or new `suggestions`.

The files:

- `values.dfy` (module `Values`): the JavaScript values the widget handles,
  a configuration record, truthiness and `ObjectUtils.isNotEmpty`, `trim`,
  lower-casing and `formatValue`.
- `options.dfy` (module `Options`): `isValidOption`, `findIndex` /
  `findLastIndex`, `flatOptions` / `visibleOptions`, `isSelected`, and the
  index finders with their exact contracts.
- `selection.dfy` (module `Selection`): `isAllowMoreValues`, the value that
  multiple-mode selection hands to `updateModel`, removal by index, the
  repeat guard of `updateModel`, and the option matching of force selection.
- `machine.dfy` (module `Machine`): the component's state as one record, and
  one function per handler over it. It defines a well-formedness invariant
  and a "within the selection limit" invariant, kept by every handler and
  by any run of actions.
- `behaviour.dfy` (module `Behaviour`): lemmas stating what each handler
  does to the state.
- `widget.dfy` (module `Widget`): the component as a class. Its fields are
  the React state, the refs (`selectedItem.current`,
  `searchTimeout.current`) and the text of the input element. Each handler
  is a method that updates the fields step by step, as the source does. Each
  method is proved to leave the fields exactly as the `Machine` function
  of the same name says. The Widget methods are the imperative form of the
  Machine functions, so each handler reads twice, once as a function and
  once as a method. The lemmas about the behaviour are stated on the
  functions, since lemmas cannot call methods.
- `session.dfy` (module `Session`): a worked example. A concrete
  single-mode session is driven through the class; its step lemmas only
  evaluate the handlers on explicit states.

Modelling decisions:

- **Timers and callbacks.** React's `setState` takes effect at once.
  - The search debounce timer is a pending query (`pendingSearch`), and
    `FireSearchTimer` is the timer firing.
  - The zero-delay hide is a queue of pending hides, and `RunHide` is the
    next tick.
  - The host's callbacks (`onChange`, `onSelect`, `onUnselect`, `onClear`,
    `completeMethod`, `onDropdownClick`) are recorded in an event log.
- **Equality and emptiness.** `ObjectUtils.deepEquals` is structural
  equality on values. `ObjectUtils.isNotEmpty` treats `null`, `""`, `[]` and
  `{}` as empty.
- **`isSelected` as written.** The handlers use `isSelected` exactly as
  line 852 writes it: the whole value deep-equals the option. In multiple
  mode that never holds for a token, so a token can be appended twice and
  navigation never starts from a selected token. The evidently intended
  membership test is modelled beside it (the `...Intended` members), with
  the property it was meant to give proved: the tokens stay duplicate-free.
  See "## Findings".
- **One keystroke is two actions.** React runs the input's `onInput` and
  then its `onChange` on the same native input event (lines 956 and 1034).
  The model's `Typed` and `InputChange` actions are those two handlers, and
  a keystroke is `Typed` followed by `InputChange`.
  Behaviour.KeystrokeWithoutMatchClears and
  Behaviour.KeystrokeClearsInMultiple state what that pair does under force
  selection: unmatched text is emptied on the same keystroke.
- **Binding.** In multiple mode the input's `onKeyDown` and `onChange` are
  bound only while more values are allowed (lines 1034-1036 of
  `AutoComplete.js`). The model guards both handlers with that condition.

## Model

| member | source | states |
|---|---|---|
| Values.NotEmptyIsTruthy | components/lib/autocomplete/AutoComplete.js:168 | a non-empty value is truthy, so a recorded non-empty `selectedItem` always arms the repeat guard |
| Values.IsNotEmpty | components/lib/autocomplete/AutoComplete.js:190 | `ObjectUtils.isNotEmpty`: null, the empty string and the empty array are empty; every object is not |
| Values.Tokens | components/lib/autocomplete/AutoComplete.js:83 | the elements of an array value, and none for the other values multiple mode can hold (`props.value` or the empty array) |
| Values.Truthy | components/lib/autocomplete/AutoComplete.js:168 | JavaScript truthiness of the values the widget handles: the empty array is truthy, the empty string is not |
| Values.Utf16Length | components/lib/autocomplete/AutoComplete.js:547-551 | `query.length` counts UTF-16 code units: between the number of characters and twice that, zero exactly for the empty string, and the number of characters when all lie in the Basic Multilingual Plane |
| Values.AstralCharCountsTwice | components/lib/autocomplete/AutoComplete.js:551 | one character outside the Basic Multilingual Plane has length 2 |
| Values.Trim | components/lib/autocomplete/AutoComplete.js:123 | `String.prototype.trim`: the start, then the end trimmed of white space (its properties: Values.TrimStart, Values.TrimEnd, Values.TrimEmptyIffBlank) |
| Values.Lower | components/lib/autocomplete/AutoComplete.js:659 | `toLocaleLowerCase`, folded to the ASCII letters |
| Values.FormatValue | components/lib/autocomplete/AutoComplete.js:193-214 | the text the input shows: `""` for an empty value; the configured field of a record; otherwise the value itself as a string, so a string shows itself, a record without `field` `"[object Object]"` and a non-empty array its elements joined by commas |
| Values.ElementText | components/lib/autocomplete/AutoComplete.js:204-214 | the text of a value turned into a string inside an array: null gives `""`, a record `"[object Object]"`, an array its joined elements |
| Values.JoinText | components/lib/autocomplete/AutoComplete.js:204-214 | `Array.prototype.join` with `","`: at least one character per separator between the elements |
| Values.JoinTextAppend | components/lib/autocomplete/AutoComplete.js:204-214 | for every non-empty array, appending an element adds one comma and that element's text to the joined text |
| Values.ArrayValueShownJoined | components/lib/autocomplete/AutoComplete.js:204-214 | the single-mode input holding `["a", "b"]` reads `"a,b"`, a null element leaves an empty place (`"a,,b"`), and a record inside an array reads `"[object Object]"` |
| Values.TrimStart | components/lib/autocomplete/AutoComplete.js:123 | the result is a suffix of the input; everything dropped is white space and the result does not start with white space |
| Values.TrimEnd | components/lib/autocomplete/AutoComplete.js:123 | the result is a prefix of the input; everything dropped is white space and the result does not end with white space |
| Values.TrimEmptyIffBlank | components/lib/autocomplete/AutoComplete.js:123 | `trim(q)` is empty exactly when every character of `q` is white space (both directions) |
| Options.FindIndex | components/lib/autocomplete/AutoComplete.js:707 | `findIndex`: -1 exactly when no element satisfies the predicate, otherwise the first position that does |
| Options.FindLastIndex | components/lib/autocomplete/AutoComplete.js:736 | `findLastIndex`: -1 exactly when no element satisfies the predicate, otherwise the last position that does |
| Options.FlatOptions | components/lib/autocomplete/AutoComplete.js:662-672 | `flatOptions`: each group becomes its header record followed by its children, in group order (its layout: the rows below) |
| Options.IsOptionDisabled | components/lib/autocomplete/AutoComplete.js:690-692 | the disabled field, read only when `optionDisabled` is configured |
| Options.IsOptionGroup | components/lib/autocomplete/AutoComplete.js:694-696 | a header record, when grouping is configured |
| Options.IsValidOption | components/lib/autocomplete/AutoComplete.js:698-700 | non-empty, not disabled and not a group header |
| Options.IsSelected | components/lib/autocomplete/AutoComplete.js:851-853 | `isSelected` as written: the whole value deep-equals the option, in both modes |
| Options.IsSelectedIntended | components/lib/autocomplete/AutoComplete.js:851-853 | `isSelected` as intended: in multiple mode the option is one of the tokens |
| Options.ValidSelectedAt | components/lib/autocomplete/AutoComplete.js:702-704 | `isValidSelectedOption`: a valid option that `isSelected` holds of |
| Options.FlatOptionsPrefix | components/lib/autocomplete/AutoComplete.js:662-672 | flattening a prefix of the groups yields a prefix of the flattened list |
| Options.FlatOptionsLayout | components/lib/autocomplete/AutoComplete.js:662-672 | group `i` sits at its offset: its header record, then each of its children in order, and the next group starts right after them |
| Options.FlatOptionsEntry | components/lib/autocomplete/AutoComplete.js:662-672 | conversely, every entry of the flat list is some group's header or one of that group's children |
| Options.OffsetOfAllGroups | components/lib/autocomplete/AutoComplete.js:662-672 | the flat list is exactly one header plus the children per group long |
| Options.FlatOptionsEntryFrom | components/lib/autocomplete/AutoComplete.js:662-672 | every entry at or after group `i`'s offset is the header or a child of some group (the induction step of Options.FlatOptionsEntry) |
| Options.VisibleOptions | components/lib/autocomplete/AutoComplete.js:686-688 | ungrouped suggestions are shown as they are; grouped ones are exactly `flatOptions` of the groups, with at least one entry per group |
| Options.OffsetAtLeastIndex | components/lib/autocomplete/AutoComplete.js:662-672 | group `i`'s header is at position `i` or later |
| Options.HeadersAreSkipped | components/lib/autocomplete/AutoComplete.js:694-700 | a group header is never a valid option, so navigation never lands on one |
| Options.AsWrittenMissesSelectedTokens | components/lib/autocomplete/AutoComplete.js:851-853 | for a token of a multiple value, `isSelected` as written does not hold and the intended one does |
| Options.FindSelectedOptionIndex | components/lib/autocomplete/AutoComplete.js:702-708 | -1 exactly when no valid option deep-equals the whole value, otherwise the first valid option that does |
| Options.FindSelectedOptionIndexIntended | components/lib/autocomplete/AutoComplete.js:702-708 | the intended counterpart: -1 exactly when no valid option is selected in the intended sense (in multiple mode, one of the tokens), otherwise the first one that is |
| Options.SelectedIndexIgnoresTokens | components/lib/autocomplete/AutoComplete.js:702-708 | as written, over options that are not arrays, a multiple-mode value never has a selected option, whatever its tokens |
| Options.FirstFocusSkipsTokenAsWritten | components/lib/autocomplete/AutoComplete.js:741-745 | with the token `"b"` selected over the options `"a"`, `"b"`, the first focused option is index 0, where the intended `isSelected` finds the token at index 1 |
| Options.FindFirstOptionIndex | components/lib/autocomplete/AutoComplete.js:710-712 | -1 exactly when no option is valid, otherwise the first valid option |
| Options.FindLastOptionIndex | components/lib/autocomplete/AutoComplete.js:725-727 | -1 exactly when no option is valid, otherwise the last valid option |
| Options.FindNextOptionIndex | components/lib/autocomplete/AutoComplete.js:714-723 | the smallest valid index after `i`; `i` itself exactly when there is none (no wrap-around) |
| Options.FindPrevOptionIndex | components/lib/autocomplete/AutoComplete.js:735-739 | the largest valid index before `i`; `i` itself exactly when there is none (no wrap-around) |
| Options.FindFirstFocusedOptionIndex | components/lib/autocomplete/AutoComplete.js:741-745 | the first valid option that deep-equals the value if there is one, else the first valid option; -1 exactly when no option is valid |
| Options.FindLastFocusedOptionIndex | components/lib/autocomplete/AutoComplete.js:729-733 | the first valid option that deep-equals the value if there is one, else the last valid option; -1 exactly when no option is valid |
| Options.NextThenPrev | components/lib/autocomplete/AutoComplete.js:714-723 | from a valid option, moving down and then up returns to it, unless it is the last valid option |
| Options.PrevThenNext | components/lib/autocomplete/AutoComplete.js:735-739 | from a valid option, moving up and then down returns to it, unless it is the first valid option |
| Selection.SelectItemMultiple | components/lib/autocomplete/AutoComplete.js:139-147 | a new value exactly when the whole value does not deep-equal the option (`isSelected` as written) and `isAllowMoreValues` holds; it is the old tokens with the option appended, and never longer than the limit |
| Selection.SelectItemMultipleIntended | components/lib/autocomplete/AutoComplete.js:139-147 | the intended counterpart: a new value exactly when the option is not yet a token and `isAllowMoreValues` holds; the old tokens with the option appended, never longer than the limit |
| Selection.AppendKeepsDistinct | components/lib/autocomplete/AutoComplete.js:139-147 | appending an option that is absent from duplicate-free tokens keeps them duplicate-free |
| Selection.SelectItemIntendedKeepsDistinct | components/lib/autocomplete/AutoComplete.js:143 | the intended selection never introduces a duplicate token |
| Selection.DuplicateTokenAsWritten | components/lib/autocomplete/AutoComplete.js:143 | as written, selecting an existing token below the limit appends it again, so the tokens hold a duplicate; the intended selection leaves the value alone |
| Selection.OptionSelectMultiple | components/lib/autocomplete/AutoComplete.js:79-85 | `onOptionSelect` appends the option exactly when the whole value does not deep-equal it (`isSelected` as written), with no limit check |
| Selection.OptionSelectMultipleIntended | components/lib/autocomplete/AutoComplete.js:79-85 | the intended counterpart: the option is appended exactly when it is not yet a token |
| Selection.OptionSelectIntendedKeepsDistinct | components/lib/autocomplete/AutoComplete.js:83 | the intended `onOptionSelect` never introduces a duplicate token |
| Selection.DuplicateOptionAsWritten | components/lib/autocomplete/AutoComplete.js:83 | as written, `onOptionSelect` on an existing token appends it again, so the tokens hold a duplicate; the intended one leaves the value alone |
| Selection.RemoveAt | components/lib/autocomplete/AutoComplete.js:311 | filtering out index `k` yields the value without its `k`-th element, the others in order; an index out of range leaves it whole |
| Selection.SpliceMultiset | components/lib/autocomplete/AutoComplete.js:311 | the parts before and after `k` plus the element at `k` are the whole value |
| Selection.RemoveAtMultiset | components/lib/autocomplete/AutoComplete.js:309-338 | removal takes out exactly one element, the one at the index |
| Selection.ModelUpdate | components/lib/autocomplete/AutoComplete.js:166-191 | the notification is dropped exactly when the record is truthy and deep-equals the new value; otherwise the record becomes the value when it is non-empty, and null when it is empty |
| Selection.RepeatedUpdateNotifiesOnce | components/lib/autocomplete/AutoComplete.js:166-191 | a second update with the same value is dropped exactly when the value is non-empty |
| Selection.RecordSuppressesExactlyItself | components/lib/autocomplete/AutoComplete.js:168 | a non-empty record drops exactly the updates that repeat it |
| Selection.ForceMatch | components/lib/autocomplete/AutoComplete.js:777-782 | the first raw suggestion whose field text equals the trimmed input, and none when no suggestion matches; grouped suggestions never match |
| Selection.MatchTypedOption | components/lib/autocomplete/AutoComplete.js:99 | the first visible valid option whose label equals the typed text (letter case aside), and none when no option matches |
| Selection.IsAllowMoreValues | components/lib/autocomplete/AutoComplete.js:871-873 | no value, no limit, or a value shorter than the limit |
| Selection.OptionLabel | components/lib/autocomplete/AutoComplete.js:654-656 | `getOptionLabel`: the configured field of a record, or the option itself |
| Selection.OptionMatched | components/lib/autocomplete/AutoComplete.js:658-660 | `isOptionMatched`: a valid option whose label equals the text, letter case aside |
| Selection.FieldText | components/lib/autocomplete/AutoComplete.js:779 | the text force selection compares: the configured field of a record, or a string option itself |
| Selection.ForceMatches | components/lib/autocomplete/AutoComplete.js:781 | a non-empty text equal to the input once both are trimmed |
| Machine.LastChangeAppend | components/lib/autocomplete/AutoComplete.js:172-190 | the last change notification after logging `e` is `e` if `e` is one, else the earlier last |
| Machine.ChangesFitAll | components/lib/autocomplete/AutoComplete.js:871-873 | the recursive "every notified value fits the limit" equals its quantified form |
| Machine.Init | components/lib/autocomplete/AutoComplete.js:53 | the initial state is well formed: nothing notified, overlay hidden, no option focused, nothing recorded |
| Machine.Emit | components/lib/autocomplete/AutoComplete.js:153 | a callback other than `onChange` is logged at the end and nothing else changes; the invariants are kept |
| Machine.UpdateModel | components/lib/autocomplete/AutoComplete.js:166-191 | either `Changed(v)` is logged, or nothing is and `v` was the non-empty record; a non-empty `v` is recorded; only the log and the record change |
| Machine.Show | components/lib/autocomplete/AutoComplete.js:217-219 | only the overlay flag changes, to visible |
| Machine.Hide | components/lib/autocomplete/AutoComplete.js:221-234 | only a pending hide is queued; nothing is hidden yet |
| Machine.RunHide | components/lib/autocomplete/AutoComplete.js:222-229 | the oldest pending hide runs: the overlay closes, the focus and `clicked` are reset and `dirty` takes its argument; with none pending, nothing changes |
| Machine.OnOptionSelect | components/lib/autocomplete/AutoComplete.js:77-91 | keeps the invariants, and keeps the limit whenever more values are allowed (its effects: Behaviour.OptionSelect*) |
| Machine.OptionSelectModel | components/lib/autocomplete/AutoComplete.js:79-85 | only the input text (cleared), the log and the record change |
| Machine.SelectItem | components/lib/autocomplete/AutoComplete.js:138-164 | keeps the invariants and the selection limit (its effects: Behaviour.SelectItem*) |
| Machine.SelectItemModel | components/lib/autocomplete/AutoComplete.js:139-147 | only the input text (cleared), the log and the record change; the limit is kept |
| Machine.ChangeFocusedOptionIndex | components/lib/autocomplete/AutoComplete.js:340-349 | the focused index becomes the requested one; the invariants are kept |
| Machine.OptionAt | components/lib/autocomplete/AutoComplete.js:346 | `visibleOptions()[index]`, `undefined` outside the list |
| Machine.DownTarget | components/lib/autocomplete/AutoComplete.js:371 | the index Down moves to is -1 or an index |
| Machine.UpTarget | components/lib/autocomplete/AutoComplete.js:391 | the index Up moves to is -1 or an index |
| Machine.OnArrowDownKey | components/lib/autocomplete/AutoComplete.js:366-376 | keeps the invariants (its effect: Behaviour.ArrowDownMovesFocus) |
| Machine.SelectFocused | components/lib/autocomplete/AutoComplete.js:384-387 | keeps the invariants, and keeps the limit whenever more values are allowed |
| Machine.OnArrowUpKey | components/lib/autocomplete/AutoComplete.js:378-397 | keeps the invariants (its effect: Behaviour.ArrowUpMovesFocus without Alt, Behaviour.AltUpSelectsFocused with Alt) |
| Machine.OnEnterKey | components/lib/autocomplete/AutoComplete.js:450-464 | keeps the invariants (its effects: Behaviour.EnterWhileHidden, Behaviour.EnterSelectsFocused) |
| Machine.OnEscapeKey | components/lib/autocomplete/AutoComplete.js:466-469 | keeps the invariants (its effect: Behaviour.EscapeHides) |
| Machine.OnTabKey | components/lib/autocomplete/AutoComplete.js:471-477 | keeps the invariants, and keeps the limit whenever more values are allowed (its effect: Behaviour.TabSelectsFocused) |
| Machine.OnArrowLeftKey | components/lib/autocomplete/AutoComplete.js:399-412 | clears the option focus; in multiple mode, with empty text and a value, the token focus goes to the token count, else it stays |
| Machine.ClearOptionFocus | components/lib/autocomplete/AutoComplete.js:414-438 | Right, Home and End only clear the option focus |
| Machine.OnKeyDown | components/lib/autocomplete/AutoComplete.js:563-630 | nothing changes while disabled or, in multiple mode, at the limit; otherwise `clicked` ends false; the invariants are kept |
| Machine.KeysActive | components/lib/autocomplete/AutoComplete.js:1034-1036 | the key handler is bound (more values allowed) and the widget is not disabled |
| Machine.KeyHandler | components/lib/autocomplete/AutoComplete.js:570-626 | keeps the invariants, and keeps the limit whenever more values are allowed |
| Machine.OnArrowLeftKeyOnMultiple | components/lib/autocomplete/AutoComplete.js:515-517 | the token focus moves one left and never goes below 0; nothing else changes |
| Machine.OnArrowRightKeyOnMultiple | components/lib/autocomplete/AutoComplete.js:519-528 | the token focus moves one right, and is reset to -1 exactly when that would pass the last token; nothing else changes |
| Machine.RemoveItem | components/lib/autocomplete/AutoComplete.js:309-321 | keeps the invariants and the limit (its effect: Behaviour.RemoveItemEffect) |
| Machine.RemoveOption | components/lib/autocomplete/AutoComplete.js:323-338 | keeps the invariants and the limit (its effect: Behaviour.RemoveOptionEffect) |
| Machine.OnBackspaceKeyOnMultiple | components/lib/autocomplete/AutoComplete.js:530-534 | keeps the invariants and the limit (its effect: Behaviour.BackspaceRemovesFocusedToken) |
| Machine.OnMultipleContainerKeyDown | components/lib/autocomplete/AutoComplete.js:826-849 | nothing changes while disabled; the invariants are kept |
| Machine.ArrowLeftBubbles | components/lib/autocomplete/AutoComplete.js:399-412 | a Left arrow in the input reaches the token list unless `onArrowLeftKey` stops it (text present or no value) or `onKeyDown` is unbound |
| Machine.ArrowLeftBubbled | components/lib/autocomplete/AutoComplete.js:399-412 | as written, the bubbled Left arrow: the input handler's outcome, with the token focus the token list computes from the old focus (line 516); only the token focus can differ from `onKeyDown` alone |
| Machine.ArrowLeftBubbledIntended | components/lib/autocomplete/AutoComplete.js:399-412 | the same event with the token list moving left from the focus the input handler has just set; only the token focus can differ from `onKeyDown` alone |
| Machine.OnMultipleContainerBlur | components/lib/autocomplete/AutoComplete.js:815-818 | only the token focus is reset to -1 |
| Machine.Search | components/lib/autocomplete/AutoComplete.js:116-136 | keeps the invariants (its gating: Behaviour.MissingQueryIgnored, Behaviour.BlankQueryIgnoredOnlyFromInput) |
| Machine.OnInput | components/lib/autocomplete/AutoComplete.js:536-561 | keeps the invariants (its gating: Behaviour.EmptyInputClears, Behaviour.ShortInputNeverSearches, Behaviour.LongInputSchedulesSearch) |
| Machine.TypedModel | components/lib/autocomplete/AutoComplete.js:537-544 | the pending search is cancelled and the input holds the text; beyond that only the log and the record change |
| Machine.FireSearchTimer | components/lib/autocomplete/AutoComplete.js:554-556 | keeps the invariants (its effect: Behaviour.TimerCompletesQuery) |
| Machine.OnDropdownClick | components/lib/autocomplete/AutoComplete.js:293-307 | keeps the invariants (its effects: Behaviour.DropdownBlankSearch, Behaviour.DropdownCurrentSearch) |
| Machine.OnChange | components/lib/autocomplete/AutoComplete.js:93-114 | keeps the invariants (its effects: Behaviour.Change*) |
| Machine.ForcedChange | components/lib/autocomplete/AutoComplete.js:95-112 | keeps the invariants, and keeps the limit whenever more values are allowed |
| Machine.ForceItemSelection | components/lib/autocomplete/AutoComplete.js:770-792 | keeps the invariants and the limit |
| Machine.OnBlur | components/lib/autocomplete/AutoComplete.js:794-804 | keeps the invariants (its effects: Behaviour.BlurForcesSelection, Behaviour.BlurClearsTypedTextInMultiple) |
| Machine.OnFocus | components/lib/autocomplete/AutoComplete.js:747-768 | keeps the invariants (its effects: Behaviour.FocusSearchesOnce, Behaviour.FocusFocusesOption) |
| Machine.OnContainerClick | components/lib/autocomplete/AutoComplete.js:281-291 | only `clicked` changes, to true |
| Machine.SetValue | components/lib/autocomplete/AutoComplete.js:898-906 | keeps the invariants, and the limit for a value within it |
| Machine.SetSuggestions | components/lib/autocomplete/AutoComplete.js:891-896 | keeps the invariants (its effect: Behaviour.SuggestionsEndSearch) |
| Machine.SuggestionsNotEmpty | components/lib/autocomplete/AutoComplete.js:893 | `ObjectUtils.isNotEmpty(props.suggestions)` |
| Machine.Step | components/lib/autocomplete/AutoComplete.js:1033-1070 | any event, timer or re-render keeps the state well formed |
| Machine.StepKeepsWithinLimit | components/lib/autocomplete/AutoComplete.js:871-873 | no single action makes a notification carry more tokens than the limit |
| Machine.Run | components/lib/autocomplete/AutoComplete.js:1033-1070 | any sequence of actions keeps the state well formed |
| Machine.RunKeepsWithinLimit | components/lib/autocomplete/AutoComplete.js:139-147 | over any run in which the host only sets values within the limit, no notified value exceeds the selection limit |
| Behaviour.NoRepeatedNotification | components/lib/autocomplete/AutoComplete.js:166-191 | while the last notified value is still recorded, notifying it again logs nothing |
| Behaviour.UpdateTwiceNotifiesOnce | components/lib/autocomplete/AutoComplete.js:166-191 | two updates with the same non-empty value log what one update logs |
| Behaviour.OptionSelectSkipsSelected | components/lib/autocomplete/AutoComplete.js:79-88 | in multiple mode, an option that the whole value deep-equals only clears the input and queues the hide |
| Behaviour.OptionSelectRepeatsToken | components/lib/autocomplete/AutoComplete.js:79-88 | in multiple mode, an option that already is a token is appended again: the value notified holds it twice (unless that array is already recorded) |
| Behaviour.OptionSelectAppendsToken | components/lib/autocomplete/AutoComplete.js:79-88 | in multiple mode an option the whole value does not deep-equal is notified appended to the tokens (unless that array is already recorded), with no limit check; the value prop is untouched |
| Behaviour.OptionSelectSingle | components/lib/autocomplete/AutoComplete.js:86-88 | in single mode the option itself is notified (unless already recorded), and the hide is queued when asked |
| Behaviour.SelectItemInput | components/lib/autocomplete/AutoComplete.js:138-164 | `selectItem` clears the input (multiple) or shows the option (single), queues a hide unless prevented, and leaves the value, suggestions, focus and overlay alone |
| Behaviour.SelectItemEvents | components/lib/autocomplete/AutoComplete.js:138-153 | `selectItem` logs `onSelect` last, preceded at most by the change to the appended tokens (multiple) or the option (single) |
| Behaviour.SelectItemEventsLast | components/lib/autocomplete/AutoComplete.js:138-160 | `selectItem`'s events are those of its value part followed by `onSelect` |
| Behaviour.SelectItemModelEffect | components/lib/autocomplete/AutoComplete.js:139-147 | the multiple-mode value part notifies, if anything, the tokens with the option appended: it may do so when the whole value does not deep-equal the option and the limit is not reached, and does nothing otherwise |
| Behaviour.SelectItemRefusesSelectedOrLimit | components/lib/autocomplete/AutoComplete.js:143 | an option the whole value deep-equals, or a selection at the limit, is reported through `onSelect` only |
| Behaviour.SelectItemRepeatsToken | components/lib/autocomplete/AutoComplete.js:139-163 | below the limit, clicking an item that already is a token appends it again (the value notified holds it twice), then `onSelect` fires |
| Behaviour.ArrowDownMovesFocus | components/lib/autocomplete/AutoComplete.js:366-376 | Down does nothing with the overlay hidden; otherwise only the focus moves, to `DownTarget`: forward, onto a valid option, and onto some option whenever one is valid |
| Behaviour.ArrowUpMovesFocus | components/lib/autocomplete/AutoComplete.js:378-397 | Up does nothing with the overlay hidden; otherwise only the focus moves, to `UpTarget`: backward (when focused), onto a valid option whenever one is valid |
| Behaviour.FocusSelectsOption | components/lib/autocomplete/AutoComplete.js:340-349 | in single mode, with `selectOnFocus` or `autoHighlight`, moving the focus notifies the newly focused option |
| Behaviour.DownDownUp | components/lib/autocomplete/AutoComplete.js:366-397 | on an open list of valid options with nothing selected, the first Down focuses option 0 and Down, Down, Up comes back to option 0; the value is unchanged |
| Behaviour.FirstDownFocusesFirst | components/lib/autocomplete/AutoComplete.js:366-376 | on an open list of valid options with nothing selected, the first Down focuses option 0 and changes nothing else but `clicked` |
| Behaviour.DownThenUpReturns | components/lib/autocomplete/AutoComplete.js:366-397 | from option 0, valid, Down then Up comes back to option 0 and leaves the value alone |
| Behaviour.EnterWhileHidden | components/lib/autocomplete/AutoComplete.js:450-455 | Enter with the overlay hidden clears the focus and opens nothing |
| Behaviour.EnterSelectsFocused | components/lib/autocomplete/AutoComplete.js:456-463 | in single mode, Enter on a focused option notifies it and queues the hides |
| Behaviour.AltUpSelectsFocused | components/lib/autocomplete/AutoComplete.js:378-390 | Alt+Up on an open overlay in single mode notifies the focused option (unless recorded) and queues the hide it asks for and one more; with no focused option it only queues one hide; on a hidden overlay nothing happens |
| Behaviour.TabSelectsFocused | components/lib/autocomplete/AutoComplete.js:471-477 | Tab in single mode notifies the focused option (unless recorded) and queues its hide, plus one more while the overlay is shown; with no focused option it only hides an open overlay |
| Behaviour.EscapeHides | components/lib/autocomplete/AutoComplete.js:466-469 | on a hidden overlay Escape only resets `clicked`; on a shown one its hide, once run, closes the overlay, clears the focus, leaves the widget dirty and notifies nothing |
| Behaviour.HideThenRun | components/lib/autocomplete/AutoComplete.js:221-234 | a hide followed by its tick closes the overlay, clears the focus and `clicked`, and sets `dirty` to its argument |
| Behaviour.KeysIgnoredAtLimit | components/lib/autocomplete/AutoComplete.js:1036 | in multiple mode at the selection limit the input's own key handler is unbound, so it changes nothing |
| Behaviour.LeftAtLimitMovesTokenFocus | components/lib/autocomplete/AutoComplete.js:1034-1070 | at the limit the input's handler does nothing, yet a Left arrow bubbling to the token list focuses token 0 when no token was focused |
| Behaviour.ArrowRightLeavesTokens | components/lib/autocomplete/AutoComplete.js:519-528 | Right on the last token returns the token focus to -1 |
| Behaviour.RemoveItemEffect | components/lib/autocomplete/AutoComplete.js:309-321 | removing an index notifies the tokens without exactly that element, the rest in order (silent only when that very array is still recorded), then reports the element to `onUnselect`; the value prop, the input text and `dirty` are untouched |
| Behaviour.RemoveOptionEffect | components/lib/autocomplete/AutoComplete.js:323-338 | `removeOption` notifies the tokens without exactly the one at the index (silent only when that very array is still recorded), then reports that one to `onUnselect`, and marks the component dirty |
| Behaviour.BackspaceRemovesFocusedToken | components/lib/autocomplete/AutoComplete.js:530-534 | Backspace on a focused token notifies the tokens without exactly that one (silent only when that very array is still recorded), reports it to `onUnselect` and marks the component dirty |
| Behaviour.EmptyInputClears | components/lib/autocomplete/AutoComplete.js:546-548 | an empty query queues a hide, fires `onClear` and schedules no search |
| Behaviour.ShortInputNeverSearches | components/lib/autocomplete/AutoComplete.js:551-560 | a non-empty query whose UTF-16 length is below `minLength` queues a hide and schedules no search |
| Behaviour.LongInputSchedulesSearch | components/lib/autocomplete/AutoComplete.js:551-557 | a query whose UTF-16 length reaches `minLength` clears the focus and schedules a search of exactly that text |
| Behaviour.TimerCompletesQuery | components/lib/autocomplete/AutoComplete.js:116-136 | the timer firing calls `completeMethod` with the query, unless it is blank, which changes nothing but the timer |
| Behaviour.BlankQueryIgnoredOnlyFromInput | components/lib/autocomplete/AutoComplete.js:118-123 | a blank query from the input is ignored, and one from the dropdown is searched |
| Behaviour.MissingQueryIgnored | components/lib/autocomplete/AutoComplete.js:118-120 | a null or undefined query changes nothing |
| Behaviour.DropdownBlankSearch | components/lib/autocomplete/AutoComplete.js:293-307 | in blank mode the dropdown completes the empty query and reports the current text |
| Behaviour.DropdownCurrentSearch | components/lib/autocomplete/AutoComplete.js:293-307 | in current mode the dropdown completes the text as typed, blank or not, and reports it; in any other mode it only reports the click |
| Behaviour.SuggestionsEndSearch | components/lib/autocomplete/AutoComplete.js:891-896 | new suggestions end a search, showing the overlay when there are any or the empty message is on, and queueing a hide otherwise |
| Behaviour.BlurForcesSelection | components/lib/autocomplete/AutoComplete.js:770-804 | with force selection in single mode, blur clears the option focus and either selects the first suggestion matching the trimmed input (shown in the input, `onSelect` last, no hide) or clears the input, notifies null (never suppressed) and fires `onClear` last |
| Behaviour.BlurWithMatch | components/lib/autocomplete/AutoComplete.js:770-804 | blur with a matching suggestion shows it in the input, clears the option focus, hides nothing and fires `onSelect` last |
| Behaviour.BlurWithoutMatch | components/lib/autocomplete/AutoComplete.js:770-804 | blur without a match clears the option focus and the input, notifies null and fires `onClear` last |
| Behaviour.ForceItemSelectionClears | components/lib/autocomplete/AutoComplete.js:784-791 | `forceItemSelection` without a match in single mode empties the input, notifies and records null, then fires `onClear`; nothing else changes |
| Behaviour.BlurClearsTypedTextInMultiple | components/lib/autocomplete/AutoComplete.js:772-775 | in multiple mode a forced blur only clears the typed text and the focus |
| Behaviour.ChangeWithoutMatchClears | components/lib/autocomplete/AutoComplete.js:107-112 | with no matching option the input is cleared, `onClear` fires and then null is notified, which is never suppressed, and recorded; the pending search is untouched |
| Behaviour.TypedInSingle | components/lib/autocomplete/AutoComplete.js:536-560 | a non-empty keystroke in single mode leaves the text in the input and the options as they were, notifies the text unless it is recorded, and schedules the search exactly when the text is long enough |
| Behaviour.KeystrokeWithoutMatchClears | components/lib/autocomplete/AutoComplete.js:93-112 | one keystroke is `onInput` then `onChange`: with force selection in single mode, a text naming no visible option is emptied on that keystroke, `onClear` fires, null is notified and recorded, and the search for the text stays scheduled |
| Behaviour.KeystrokeClearsInMultiple | components/lib/autocomplete/AutoComplete.js:93-112 | with force selection in multiple mode, while more values are allowed, every keystroke empties the input and fires `onClear`; the value is untouched |
| Behaviour.ArrowLeftFocusesFirstTokenAsWritten | components/lib/autocomplete/AutoComplete.js:399-412 | as written, Left in the empty input with two or more tokens and none focused ends on token 0, where the intended handling focuses the last token |
| Behaviour.ArrowLeftFocusesLastToken | components/lib/autocomplete/AutoComplete.js:399-412 | with the token list reading the fresh focus, Left in the empty input clears the option focus and focuses the last token; with text present the token focus stays |
| Behaviour.ChangeInMultipleClearsInput | components/lib/autocomplete/AutoComplete.js:93-114 | in multiple mode the change clears the input and fires `onClear` while more values are allowed, and does nothing at the limit |
| Behaviour.ChangeWithMatchSelects | components/lib/autocomplete/AutoComplete.js:99-104 | a matching option that is not the value is selected and a hide is queued |
| Behaviour.FocusSearchesOnce | components/lib/autocomplete/AutoComplete.js:747-768 | the first focus completes the current text, and a second focus searches nothing |
| Behaviour.FocusFocusesOption | components/lib/autocomplete/AutoComplete.js:760-764 | with the overlay open, no option focused and `autoOptionFocus`, focusing the input focuses a valid option, and -1 exactly when no option is valid |
| Behaviour.EmptyValueResetsRecord | components/lib/autocomplete/AutoComplete.js:1004-1007 | in multiple mode an empty value resets the record, so the next update always notifies |
| Behaviour.SingleValueShown | components/lib/autocomplete/AutoComplete.js:898-902 | in single mode a re-render shows the formatted value in the input |
| Widget.AutoComplete.constructor | components/lib/autocomplete/AutoComplete.js:16-60 | the fields start in the machine's initial state |
| Widget.AutoComplete.UpdateModel | components/lib/autocomplete/AutoComplete.js:166-191 | the fields move as Machine.UpdateModel says |
| Widget.AutoComplete.Notify | components/lib/autocomplete/AutoComplete.js:153 | the fields move as Machine.Emit says |
| Widget.AutoComplete.Show | components/lib/autocomplete/AutoComplete.js:217-219 | the fields move as Machine.Show says |
| Widget.AutoComplete.Hide | components/lib/autocomplete/AutoComplete.js:221-234 | the fields move as Machine.Hide says |
| Widget.AutoComplete.RunHide | components/lib/autocomplete/AutoComplete.js:222-229 | the fields move as Machine.RunHide says |
| Widget.AutoComplete.OnOptionSelect | components/lib/autocomplete/AutoComplete.js:77-91 | the fields move as Machine.OnOptionSelect says |
| Widget.AutoComplete.SelectItem | components/lib/autocomplete/AutoComplete.js:138-164 | the fields move as Machine.SelectItem says |
| Widget.AutoComplete.SelectItemModel | components/lib/autocomplete/AutoComplete.js:139-147 | the fields move as Machine.SelectItemModel says |
| Widget.AutoComplete.ChangeFocusedOptionIndex | components/lib/autocomplete/AutoComplete.js:340-349 | the fields move as Machine.ChangeFocusedOptionIndex says |
| Widget.AutoComplete.OnArrowDownKey | components/lib/autocomplete/AutoComplete.js:366-376 | the fields move as Machine.OnArrowDownKey says |
| Widget.AutoComplete.SelectFocused | components/lib/autocomplete/AutoComplete.js:384-387 | the fields move as Machine.SelectFocused says |
| Widget.AutoComplete.OnArrowUpKey | components/lib/autocomplete/AutoComplete.js:378-397 | the fields move as Machine.OnArrowUpKey says |
| Widget.AutoComplete.OnEnterKey | components/lib/autocomplete/AutoComplete.js:450-464 | the fields move as Machine.OnEnterKey says |
| Widget.AutoComplete.OnEscapeKey | components/lib/autocomplete/AutoComplete.js:466-469 | the fields move as Machine.OnEscapeKey says |
| Widget.AutoComplete.OnTabKey | components/lib/autocomplete/AutoComplete.js:471-477 | the fields move as Machine.OnTabKey says |
| Widget.AutoComplete.OnArrowLeftKey | components/lib/autocomplete/AutoComplete.js:399-412 | the fields move as Machine.OnArrowLeftKey says |
| Widget.AutoComplete.ClearOptionFocus | components/lib/autocomplete/AutoComplete.js:414-438 | the fields move as Machine.ClearOptionFocus says |
| Widget.AutoComplete.OnKeyDown | components/lib/autocomplete/AutoComplete.js:563-630 | the fields move as Machine.OnKeyDown says |
| Widget.AutoComplete.KeyHandler | components/lib/autocomplete/AutoComplete.js:570-626 | the fields move as Machine.KeyHandler says |
| Widget.AutoComplete.OnArrowLeftKeyOnMultiple | components/lib/autocomplete/AutoComplete.js:515-517 | the fields move as Machine.OnArrowLeftKeyOnMultiple says |
| Widget.AutoComplete.OnArrowRightKeyOnMultiple | components/lib/autocomplete/AutoComplete.js:519-528 | the fields move as Machine.OnArrowRightKeyOnMultiple says |
| Widget.AutoComplete.RemoveItem | components/lib/autocomplete/AutoComplete.js:309-321 | the fields move as Machine.RemoveItem says |
| Widget.AutoComplete.RemoveOption | components/lib/autocomplete/AutoComplete.js:323-338 | the fields move as Machine.RemoveOption says |
| Widget.AutoComplete.OnBackspaceKeyOnMultiple | components/lib/autocomplete/AutoComplete.js:530-534 | the fields move as Machine.OnBackspaceKeyOnMultiple says |
| Widget.AutoComplete.OnMultipleContainerKeyDown | components/lib/autocomplete/AutoComplete.js:826-849 | the fields move as Machine.OnMultipleContainerKeyDown says |
| Widget.AutoComplete.OnMultipleContainerBlur | components/lib/autocomplete/AutoComplete.js:815-818 | the fields move as Machine.OnMultipleContainerBlur says |
| Widget.AutoComplete.Search | components/lib/autocomplete/AutoComplete.js:116-136 | the fields move as Machine.Search says |
| Widget.AutoComplete.OnInput | components/lib/autocomplete/AutoComplete.js:536-561 | the fields move as Machine.OnInput says |
| Widget.AutoComplete.TypedModel | components/lib/autocomplete/AutoComplete.js:537-544 | the fields move as Machine.TypedModel says |
| Widget.AutoComplete.FireSearchTimer | components/lib/autocomplete/AutoComplete.js:554-556 | the fields move as Machine.FireSearchTimer says |
| Widget.AutoComplete.OnDropdownClick | components/lib/autocomplete/AutoComplete.js:293-307 | the fields move as Machine.OnDropdownClick says |
| Widget.AutoComplete.OnChange | components/lib/autocomplete/AutoComplete.js:93-114 | the fields move as Machine.OnChange says |
| Widget.AutoComplete.ForcedChange | components/lib/autocomplete/AutoComplete.js:95-112 | the fields move as Machine.ForcedChange says |
| Widget.AutoComplete.ForceItemSelection | components/lib/autocomplete/AutoComplete.js:770-792 | the fields move as Machine.ForceItemSelection says |
| Widget.AutoComplete.OnBlur | components/lib/autocomplete/AutoComplete.js:794-804 | the fields move as Machine.OnBlur says |
| Widget.AutoComplete.OnFocus | components/lib/autocomplete/AutoComplete.js:747-768 | the fields move as Machine.OnFocus says |
| Widget.AutoComplete.OnContainerClick | components/lib/autocomplete/AutoComplete.js:281-291 | the fields move as Machine.OnContainerClick says |
| Widget.AutoComplete.SetValue | components/lib/autocomplete/AutoComplete.js:898-906 | the fields move as Machine.SetValue says |
| Widget.AutoComplete.SetSuggestions | components/lib/autocomplete/AutoComplete.js:891-896 | the fields move as Machine.SetSuggestions says |
| Widget.AutoComplete.Apply | components/lib/autocomplete/AutoComplete.js:1033-1070 | the fields move as Machine.Step says, for every action |
| Session.TypingStep | components/lib/autocomplete/AutoComplete.js:536-561 | typing "a" in single mode notifies "a" and schedules the search of "a" |
| Session.SearchStep | components/lib/autocomplete/AutoComplete.js:116-136 | the timer firing completes "a" and starts searching |
| Session.AnswerStep | components/lib/autocomplete/AutoComplete.js:891-896 | the two suggestions open the overlay and end the search |
| Session.DownStep | components/lib/autocomplete/AutoComplete.js:366-376 | Down focuses the first suggestion, since "a" selects none |
| Session.EnterStep | components/lib/autocomplete/AutoComplete.js:450-464 | Enter notifies "apple" and queues two hides |
| Session.HideSteps | components/lib/autocomplete/AutoComplete.js:222-229 | the two ticks close the overlay and clear the focus |
| Session.Drive | components/lib/autocomplete/AutoComplete.js:77-191 | driving the component through the session notifies exactly "a", the completion of "a" and "apple", focuses index 0 on Down, and ends with the overlay closed |

## Left out

- Rendering (the chips, the list and its groups, the dropdown button, the loader, the root markup), styling and pass-through props are presentation only.
- DOM work is not modelled: focusing elements, `scrollInView`, `alignOverlay`, z-index handling, overlay enter/exit animation, overlay outside-click listeners and the caret handling of Home and End. PageUp and PageDown only scroll, so both are no-ops.
- Real time is not modelled. The search debounce and the zero-delay hide are explicit pending steps that an action fires. An older search response arriving after a newer query is not modelled.
- `onBackspaceKey` on the input (lines 479-513) is not modelled. It bypasses `updateModel`, passes the new value where the old value is expected, and refers to an identifier that is not in scope.
- Event bubbling is not part of the action sequence. In multiple mode a key pressed in the input reaches both `onKeyDown` and `onMultipleContainerKeyDown` in the same event, and the second handler reads not-yet-updated state. `Machine.Step` treats every key event as reaching one handler. While the input's handler is bound, the Left arrow is the one key it lets through on purpose. That case is modelled on its own (Machine.ArrowLeftBubbled): with the input empty and no token focused, the token list overwrites the token count with 0, so token 0 ends up focused (see "## Findings"). At the selection limit the input's `onKeyDown` is unbound (line 1036), so every key bubbles unhandled to the always-bound token list (line 1070). There Left, Right and Backspace act on the tokens: Left focuses a token, and a following Backspace removes it (Behaviour.LeftAtLimitMovesTokenFocus shows the first step).
- The update effect (lines 898-906) runs after every render. The model applies it when the host supplies a new value. Likewise, the reset of the recorded item made while rendering the chips of an empty value (line 1007) is applied there.
- `dataKey` / `equalityKey` and `ObjectUtils.resolveFieldData` on nested paths are left out. An option is a string or a record with one label field and a disabled flag.
- Grouping is a configuration flag, and each group arrives with its label and children already resolved. Resolving them through the `optionGroupLabel` and `optionGroupChildren` props is not modelled.
- ForceMatch (Selection.ForceMatch): with grouped suggestions, `forceItemSelection` searches the raw group objects (lines 778-782). It can select a whole group whose `field` key equals the trimmed input. The model never matches a group, because a raw group object is not a value its selection holds.
- OnArrowRightKeyOnMultiple (Machine.OnArrowRightKeyOnMultiple): with a null value, the source first sets the token focus to the next index and then throws at `props.value.length` (line 524). The model counts no tokens and resets the token focus to -1. A Right arrow in the input never gets there with a null value: `isAllowMoreValues` holds, so the input's `onKeyDown` is bound (line 1036), and in multiple mode `onArrowRightKey` stops the event (line 417). The throw needs the token list itself to hold focus, which it can (`tabIndex` -1, focused by Left at line 406), and the host to set the value to null while it does.
- `toLocaleLowerCase` is folded to ASCII letters, and `trim` uses a fixed set of white-space characters (no other Unicode space separators).
- FormatValue (Values.FormatValue): `selectedItemTemplate` (lines 197-200) is left out. A record always carries its label, so the source's fallback to the record itself when `field` resolves to nothing (line 204), shown as `"[object Object]"`, is not modelled. A record without `field` is shown as `"[object Object]"` and a non-empty array as its elements joined by commas, as in the source.
- `null` and `undefined` are one value.
- An object option without a configured field makes `isOptionMatched` throw; the model treats it as not matching.
- `removeItem` on a non-array value throws in the source; the model leaves the state alone.
- The input becomes read-only in multiple mode at the selection limit (line 1041), which the browser enforces. The model still accepts a typed action there.
- The `onFocus`, `onBlur`, `onKeyUp`, `onMouseDown` and similar pass-through callbacks are not logged; only the selection-related callbacks are.
- The host's callbacks are assumed bound. Those the model logs are `onChange`, `onSelect`, `onUnselect`, `onClear`, `completeMethod` and `onDropdownClick`.
- Machine.OnInput, Machine.Search, Machine.SelectItem and the other handler functions: their own contracts state only the invariants they keep. Their behaviour is stated by the Behaviour lemmas named in their rows, to keep each proof small.

## Findings

| source | as written | input that shows it | evidently intended | confidence | as-written member | corrected member |
|---|---|---|---|---|---|---|
| components/lib/autocomplete/AutoComplete.js:851-853 | `isSelected` compares the whole `props.value` with the option. In multiple mode an option that is already a token is never seen as selected, so `selectItem` (line 143) appends it again | multiple mode, value `["x"]`, no limit, click `"x"` in the list: the value notified is `["x", "x"]` | an option is selected in multiple mode when it is one of the tokens, and selecting a token again leaves the value alone | medium; not executed | Selection.DuplicateTokenAsWritten | Selection.SelectItemIntendedKeepsDistinct |
| components/lib/autocomplete/AutoComplete.js:83 | the same `isSelected` guards `onOptionSelect`, so Enter, Tab or Alt+Up on a focused option that is already a token appends it again | multiple mode, value `["x"]`, the list open on `"x"` with `"x"` focused, Enter: the value notified is `["x", "x"]` | choosing a token again leaves the value alone | medium; not executed | Selection.DuplicateOptionAsWritten | Selection.OptionSelectIntendedKeepsDistinct |
| components/lib/autocomplete/AutoComplete.js:399-412 | `onArrowLeftKey` sets the token focus to the token count and lets the event bubble to the token list (line 1070), whose `onArrowLeftKeyOnMultiple` (line 516) reads the old token focus and writes its own; the later write wins | multiple mode, value `["a", "b"]`, empty input, no token focused, Left: token 0 is focused | the token list moves left from the count just set, focusing the last token `"b"` | low; not executed | Behaviour.ArrowLeftFocusesFirstTokenAsWritten | Behaviour.ArrowLeftFocusesLastToken |
| components/lib/autocomplete/AutoComplete.js:702-708 | `findSelectedOptionIndex` uses the same `isSelected`, so in multiple mode, over string or object options, it is -1, and Down, Up and `autoOptionFocus` start from the first or last valid option | multiple mode, value `["b"]`, options `"a"`, `"b"`, Down from no focus: option 0 is focused | the focus starts on the first selected token, option 1 | medium; not executed | Options.FirstFocusSkipsTokenAsWritten | Options.FindSelectedOptionIndexIntended |
