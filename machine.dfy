/** The widget's behaviour as a state machine: one function per event
    handler of AutoComplete.js, each taking the component state before the
    event to the state after it. Component state, the `selectedItem` and
    `searchTimeout` refs, the text of the input element and the callbacks
    the host has received are all fields of `State`; the debounce timer and
    the deferred hide are pending entries that separate steps fire. */
module Machine {
  import opened Values
  import opened Options
  import opened Selection

  /** A callback invocation the host receives. */
  datatype Event =
    | Changed(value: Val)         // onChange
    | Selected(value: Val)        // onSelect
    | Unselected(value: Val)      // onUnselect
    | Cleared                     // onClear
    | Completed(query: string)    // completeMethod
    | DropdownClicked(query: string)  // onDropdownClick

  /** The `source` argument of `search`. */
  datatype Source = FromInput | FromDropdown | FromFocus

  /** The `event.code` values `onKeyDown` distinguishes ('NumpadEnter' is `Enter`). */
  datatype Key = ArrowDown | ArrowUp(alt: bool) | ArrowLeft | ArrowRight | Home | End
               | PageDown | PageUp | Enter | Escape | Tab | Backspace | OtherKey

  datatype State = State(
    value: Val,                      // props.value
    suggestions: Suggestions,        // props.suggestions
    inputText: string,               // inputRef.current.value
    focusedOptionIndex: int,
    focusedMultipleOptionIndex: int,
    overlayVisible: bool,
    clicked: bool,
    searching: bool,
    dirty: bool,
    selectedItem: Val,               // selectedItem.current
    pendingSearch: Option<string>,   // the debounce timer and the query it will search
    pendingHides: seq<bool>,         // deferred `_hide` calls and their isFocus argument
    events: seq<Event>)

  /** The value of the last `onChange` the host received. */
  function LastChange(events: seq<Event>): Option<Val> {
    if events == [] then None
    else if events[|events| - 1].Changed? then Some(events[|events| - 1].value)
    else LastChange(events[..|events| - 1])
  }

  lemma LastChangeAppend(events: seq<Event>, e: Event)
    ensures LastChange(events + [e]) == if e.Changed? then Some(e.value) else LastChange(events)
  {
    assert (events + [e])[..|events|] == events;
  }

  /** What every reachable state satisfies: both focus indices are -1 or
      more, the recorded item is null or non-empty and is the value of the
      last notification, the value has the mode's shape, and the
      suggestions have the configured shape. */
  predicate WellFormed(s: State, cfg: Config) {
    && s.focusedOptionIndex >= -1
    && s.focusedMultipleOptionIndex >= -1
    && (s.selectedItem == Null || IsNotEmpty(s.selectedItem))
    && (s.selectedItem != Null ==> LastChange(s.events) == Some(s.selectedItem))
    && (cfg.multiple ==> s.value.Null? || s.value.Arr?)
    && (cfg.grouped <==> s.suggestions.Grouped?)
  }

  /** A value within the selection limit (trivially so outside multiple
      mode or without a limit). */
  predicate Fits(v: Val, cfg: Config) {
    cfg.multiple && cfg.selectionLimit > 0 ==> |Tokens(v)| <= cfg.selectionLimit
  }

  /** Every value notified in `events` is within the limit. */
  predicate ChangesFit(events: seq<Event>, cfg: Config) {
    if events == [] then true
    else ChangesFit(events[..|events| - 1], cfg) &&
         (events[|events| - 1].Changed? ==> Fits(events[|events| - 1].value, cfg))
  }

  lemma ChangesFitAll(events: seq<Event>, cfg: Config)
    ensures ChangesFit(events, cfg) <==> forall i :: 0 <= i < |events| && events[i].Changed? ==> Fits(events[i].value, cfg)
  {
    if events != [] {
      var n := |events| - 1;
      ChangesFitAll(events[..n], cfg);
      assert forall i :: 0 <= i < n ==> events[..n][i] == events[i];
    }
  }

  /** The value and every value notified so far are within the limit. */
  predicate WithinLimit(s: State, cfg: Config) {
    Fits(s.value, cfg) && ChangesFit(s.events, cfg)
  }

  /** `isAllowMoreValues()` where it matters: single mode has no limit. */
  predicate MoreAllowed(s: State, cfg: Config) {
    !cfg.multiple || IsAllowMoreValues(s.value, cfg.selectionLimit)
  }

  /** A value of the shape the configured mode gives `props.value`. */
  predicate ValueFits(v: Val, cfg: Config) {
    cfg.multiple ==> v.Null? || v.Arr?
  }

  /** Suggestions of the shape the configuration gives `props.suggestions`. */
  predicate SuggestionsFit(sug: Suggestions, cfg: Config) {
    cfg.grouped <==> sug.Grouped?
  }

  /** The state of a freshly mounted widget. */
  function Init(cfg: Config, value: Val, sug: Suggestions): (s: State)
    requires ValueFits(value, cfg) && SuggestionsFit(sug, cfg)
    ensures WellFormed(s, cfg) && s.events == [] && !s.overlayVisible && s.focusedOptionIndex == -1
    ensures Fits(value, cfg) ==> WithinLimit(s, cfg)
  {
    State(value, sug, if cfg.multiple then "" else FormatValue(value, cfg),
          -1, -1, false, false, false, false, Null, None, [], [])
  }

  function Visible(s: State): seq<Val> {
    VisibleOptions(s.suggestions)
  }

  /** `visibleOptions()[index]`; `undefined` (here `Null`) outside the list. */
  function OptionAt(opts: seq<Val>, index: int): Val {
    if 0 <= index < |opts| then opts[index] else Null
  }

  /** One callback invocation other than `onChange`. */
  function Emit(s: State, cfg: Config, e: Event): (r: State)
    requires WellFormed(s, cfg) && !e.Changed?
    ensures WellFormed(r, cfg) && r.events == s.events + [e]
    ensures r == s.(events := r.events)
    ensures WithinLimit(s, cfg) ==> WithinLimit(r, cfg)
    ensures ClearCount(r.events) == ClearCount(s.events) + (if e == Cleared then 1 else 0)
  {
    LastChangeAppend(s.events, e);
    assert (s.events + [e])[..|s.events|] == s.events;
    s.(events := s.events + [e])
  }

  /** `updateModel` (line 166): notify `onChange` unless the recorded item
      is set and deep-equals `v`, then record `v`, or null when `v` is empty. */
  function UpdateModel(s: State, cfg: Config, v: Val): (r: State)
    requires WellFormed(s, cfg)
    ensures WellFormed(r, cfg)
    ensures r == s.(events := r.events, selectedItem := r.selectedItem)
    ensures r.events == s.events + [Changed(v)] || (r.events == s.events && s.selectedItem == v && IsNotEmpty(v))
    ensures IsNotEmpty(v) ==> r.selectedItem == v
    ensures ClearCount(r.events) == ClearCount(s.events)
    ensures WithinLimit(s, cfg) && Fits(v, cfg) ==> WithinLimit(r, cfg)
  {
    match ModelUpdate(s.selectedItem, v)
    case None => s
    case Some(recorded) =>
      LastChangeAppend(s.events, Changed(v));
      assert (s.events + [Changed(v)])[..|s.events|] == s.events;
      s.(events := s.events + [Changed(v)], selectedItem := recorded)
  }

  /** `show` (line 217). */
  function Show(s: State, cfg: Config): (r: State)
    requires WellFormed(s, cfg)
    ensures WellFormed(r, cfg) && r == s.(overlayVisible := true)
    ensures WithinLimit(s, cfg) ==> WithinLimit(r, cfg)
  {
    s.(overlayVisible := true)
  }

  /** `hide` (line 221): schedules `_hide` for the next tick. */
  function Hide(s: State, cfg: Config, isFocus: bool): (r: State)
    requires WellFormed(s, cfg)
    ensures WellFormed(r, cfg) && r == s.(pendingHides := s.pendingHides + [isFocus])
    ensures WithinLimit(s, cfg) ==> WithinLimit(r, cfg)
  {
    s.(pendingHides := s.pendingHides + [isFocus])
  }

  /** The deferred `_hide` (line 222) running: the overlay closes, the
      option focus is cleared, `clicked` is reset and `dirty` takes the
      `isFocus` argument. */
  function RunHide(s: State, cfg: Config): (r: State)
    requires WellFormed(s, cfg)
    ensures WellFormed(r, cfg)
    ensures s.pendingHides == [] ==> r == s
    ensures s.pendingHides != [] ==>
              r == s.(pendingHides := s.pendingHides[1..], dirty := s.pendingHides[0], overlayVisible := false,
                      clicked := false, focusedOptionIndex := -1)
    ensures WithinLimit(s, cfg) ==> WithinLimit(r, cfg)
  {
    if s.pendingHides == [] then s
    else s.(pendingHides := s.pendingHides[1..], dirty := s.pendingHides[0], overlayVisible := false,
            clicked := false, focusedOptionIndex := -1)
  }

  /** `onOptionSelect` (line 77): in multiple mode the input is cleared and
      the option appended unless `isSelected` holds of it (no limit check
      here; as written, a token already there is appended again);
      in single mode the option becomes the value; then, by default, hide. */
  function OnOptionSelect(s: State, cfg: Config, option: Val, isHide: bool): (r: State)
    requires WellFormed(s, cfg)
    ensures WellFormed(r, cfg)
    ensures WithinLimit(s, cfg) && MoreAllowed(s, cfg) ==> WithinLimit(r, cfg)
  {
    var s1 := if cfg.multiple then OptionSelectModel(s, cfg, option) else UpdateModel(s, cfg, option);
    if isHide then Hide(s1, cfg, true) else s1
  }

  /** The multiple-mode part of `onOptionSelect` (lines 79-85). */
  function OptionSelectModel(s: State, cfg: Config, option: Val): (r: State)
    requires WellFormed(s, cfg) && cfg.multiple
    ensures WellFormed(r, cfg)
    ensures r == s.(inputText := "", events := r.events, selectedItem := r.selectedItem)
    ensures WithinLimit(s, cfg) && MoreAllowed(s, cfg) ==> WithinLimit(r, cfg)
  {
    var s0 := s.(inputText := "");
    assert WellFormed(s0, cfg) && (WithinLimit(s, cfg) ==> WithinLimit(s0, cfg));
    match OptionSelectMultiple(s.value, option)
    case Some(v) =>
      assert MoreAllowed(s, cfg) ==> Fits(v, cfg);
      UpdateModel(s0, cfg, v)
    case None => s0
  }

  /** `selectItem` (line 138): the overlay's item click and force selection.
      In multiple mode the option is appended only when `isSelected` does
      not hold of it and more values are allowed; in single mode the input shows it and it
      becomes the value; `onSelect` fires in every case; unless asked not to,
      the overlay is hidden. */
  function SelectItem(s: State, cfg: Config, option: Val, preventInputFocus: bool): (r: State)
    requires WellFormed(s, cfg)
    ensures WellFormed(r, cfg)
    ensures WithinLimit(s, cfg) ==> WithinLimit(r, cfg)
  {
    var s1 := if cfg.multiple then SelectItemModel(s, cfg, option) else UpdateModel(s.(inputText := FormatValue(option, cfg)), cfg, option);
    var s2 := Emit(s1, cfg, Selected(option));
    if !preventInputFocus then Hide(s2, cfg, false) else s2
  }

  /** The multiple-mode part of `selectItem` (lines 139-147) before `onSelect`. */
  function SelectItemModel(s: State, cfg: Config, option: Val): (r: State)
    requires WellFormed(s, cfg) && cfg.multiple
    ensures WellFormed(r, cfg)
    ensures r == s.(inputText := "", events := r.events, selectedItem := r.selectedItem)
    ensures WithinLimit(s, cfg) ==> WithinLimit(r, cfg)
  {
    var s0 := s.(inputText := "");
    match SelectItemMultiple(s.value, option, cfg.selectionLimit)
    case Some(v) => UpdateModel(s0, cfg, v)
    case None => s0
  }

  /** `changeFocusedOptionIndex` (line 340): move the option focus and, with
      `selectOnFocus` or `autoHighlight`, select the newly focused option. */
  function ChangeFocusedOptionIndex(s: State, cfg: Config, index: int): (r: State)
    requires WellFormed(s, cfg) && index >= -1
    ensures WellFormed(r, cfg) && r.focusedOptionIndex == index
    ensures WithinLimit(s, cfg) && MoreAllowed(s, cfg) ==> WithinLimit(r, cfg)
  {
    if s.focusedOptionIndex != index then
      var s1 := s.(focusedOptionIndex := index);
      if cfg.selectOnFocus || cfg.autoHighlight then OnOptionSelect(s1, cfg, OptionAt(Visible(s), index), false)
      else s1
    else s
  }

  /** The option `onArrowDownKey` (lines 369-372) moves the focus to: the next
      valid one from a focused option, otherwise the first valid option
      after a click or the first focused option. */
  function DownTarget(s: State, cfg: Config): (r: int)
    requires s.focusedOptionIndex >= -1
    ensures r >= -1
  {
    var opts := Visible(s);
    if s.focusedOptionIndex != -1 then FindNextOptionIndex(opts, cfg, s.focusedOptionIndex)
    else if s.clicked then FindFirstOptionIndex(opts, cfg)
    else FindFirstFocusedOptionIndex(opts, cfg, s.value)
  }

  /** The mirror image for `onArrowUpKey` (lines 385-389). */
  function UpTarget(s: State, cfg: Config): (r: int)
    requires s.focusedOptionIndex >= -1
    ensures r >= -1
  {
    var opts := Visible(s);
    if s.focusedOptionIndex != -1 then FindPrevOptionIndex(opts, cfg, s.focusedOptionIndex)
    else if s.clicked then FindLastOptionIndex(opts, cfg)
    else FindLastFocusedOptionIndex(opts, cfg, s.value)
  }

  /** `onArrowDownKey` (line 366): only while the overlay is shown. */
  function OnArrowDownKey(s: State, cfg: Config): (r: State)
    requires WellFormed(s, cfg)
    ensures WellFormed(r, cfg)
    ensures WithinLimit(s, cfg) && MoreAllowed(s, cfg) ==> WithinLimit(r, cfg)
  {
    if !s.overlayVisible then s
    else ChangeFocusedOptionIndex(s, cfg, DownTarget(s, cfg))
  }

  /** Select the focused option, if any, as Enter, Tab and Alt+Up do. */
  function SelectFocused(s: State, cfg: Config): (r: State)
    requires WellFormed(s, cfg)
    ensures WellFormed(r, cfg)
    ensures WithinLimit(s, cfg) && MoreAllowed(s, cfg) ==> WithinLimit(r, cfg)
  {
    if s.focusedOptionIndex != -1 then OnOptionSelect(s, cfg, OptionAt(Visible(s), s.focusedOptionIndex), true) else s
  }

  /** `onArrowUpKey` (line 378): with Alt, select the focused option and
      hide; otherwise move the focus up. */
  function OnArrowUpKey(s: State, cfg: Config, alt: bool): (r: State)
    requires WellFormed(s, cfg)
    ensures WellFormed(r, cfg)
    ensures WithinLimit(s, cfg) && MoreAllowed(s, cfg) ==> WithinLimit(r, cfg)
  {
    if !s.overlayVisible then s
    else if alt then Hide(SelectFocused(s, cfg), cfg, false)
    else ChangeFocusedOptionIndex(s, cfg, UpTarget(s, cfg))
  }

  /** `onEnterKey` (line 450): with the overlay hidden only the option focus
      is cleared (the `onArrowDownKey` it calls returns at once); otherwise
      the focused option is selected and the overlay hidden. */
  function OnEnterKey(s: State, cfg: Config): (r: State)
    requires WellFormed(s, cfg)
    ensures WellFormed(r, cfg)
    ensures WithinLimit(s, cfg) && MoreAllowed(s, cfg) ==> WithinLimit(r, cfg)
  {
    if !s.overlayVisible then OnArrowDownKey(s.(focusedOptionIndex := -1), cfg)
    else Hide(SelectFocused(s, cfg), cfg, false)
  }

  /** `onEscapeKey` (line 466). */
  function OnEscapeKey(s: State, cfg: Config): (r: State)
    requires WellFormed(s, cfg)
    ensures WellFormed(r, cfg)
    ensures WithinLimit(s, cfg) ==> WithinLimit(r, cfg)
  {
    if s.overlayVisible then Hide(s, cfg, true) else s
  }

  /** `onTabKey` (line 471): select the focused option, hide if shown. */
  function OnTabKey(s: State, cfg: Config): (r: State)
    requires WellFormed(s, cfg)
    ensures WellFormed(r, cfg)
    ensures WithinLimit(s, cfg) && MoreAllowed(s, cfg) ==> WithinLimit(r, cfg)
  {
    var s1 := SelectFocused(s, cfg);
    if s.overlayVisible then Hide(s1, cfg, false) else s1
  }

  /** `onArrowLeftKey` (line 399): clears the option focus; in multiple mode,
      with an empty input and a selection, the token focus goes one past the
      last token. */
  function OnArrowLeftKey(s: State, cfg: Config): (r: State)
    requires WellFormed(s, cfg)
    ensures WellFormed(r, cfg)
    ensures r == s.(focusedOptionIndex := -1, focusedMultipleOptionIndex := r.focusedMultipleOptionIndex)
    ensures cfg.multiple && s.inputText == "" && IsNotEmpty(s.value) ==> r.focusedMultipleOptionIndex == |Tokens(s.value)|
    ensures !(cfg.multiple && s.inputText == "" && IsNotEmpty(s.value)) ==> r.focusedMultipleOptionIndex == s.focusedMultipleOptionIndex
    ensures WithinLimit(s, cfg) ==> WithinLimit(r, cfg)
  {
    var s1 := s.(focusedOptionIndex := -1);
    if cfg.multiple && s.inputText == "" && IsNotEmpty(s.value) then
      s1.(focusedMultipleOptionIndex := |Tokens(s.value)|)
    else s1
  }

  /** `onArrowRightKey`, `onHomeKey`, `onEndKey` (lines 414, 420, 430): the
      option focus is cleared (caret movement is not modelled). */
  function ClearOptionFocus(s: State, cfg: Config): (r: State)
    requires WellFormed(s, cfg)
    ensures WellFormed(r, cfg) && r == s.(focusedOptionIndex := -1)
    ensures WithinLimit(s, cfg) ==> WithinLimit(r, cfg)
  {
    s.(focusedOptionIndex := -1)
  }

  /** Whether the input's key handler is bound and acts: multiple mode
      unbinds it once no more values are allowed (line 1036), and a
      disabled widget ignores keys (line 565). */
  predicate KeysActive(s: State, cfg: Config) {
    !cfg.disabled && MoreAllowed(s, cfg)
  }

  /** `onKeyDown` (line 563): dispatch on the key, then reset `clicked`. */
  function OnKeyDown(s: State, cfg: Config, key: Key): (r: State)
    requires WellFormed(s, cfg)
    ensures WellFormed(r, cfg)
    ensures !KeysActive(s, cfg) ==> r == s
    ensures KeysActive(s, cfg) ==> !r.clicked
    ensures WithinLimit(s, cfg) ==> WithinLimit(r, cfg)
  {
    if !KeysActive(s, cfg) then s else KeyHandler(s, cfg, key).(clicked := false)
  }

  /** The handler `onKeyDown` dispatches to for each key (lines 570-626). */
  function KeyHandler(s: State, cfg: Config, key: Key): (r: State)
    requires WellFormed(s, cfg)
    ensures WellFormed(r, cfg)
    ensures WithinLimit(s, cfg) && MoreAllowed(s, cfg) ==> WithinLimit(r, cfg)
  {
    match key
    case ArrowDown => OnArrowDownKey(s, cfg)
    case ArrowUp(alt) => OnArrowUpKey(s, cfg, alt)
    case ArrowLeft => OnArrowLeftKey(s, cfg)
    case ArrowRight => ClearOptionFocus(s, cfg)
    case Home => ClearOptionFocus(s, cfg)
    case End => ClearOptionFocus(s, cfg)
    case PageDown => s
    case PageUp => s
    case Enter => OnEnterKey(s, cfg)
    case Escape => OnEscapeKey(s, cfg)
    case Tab => OnTabKey(s, cfg)
    case Backspace => s
    case OtherKey => s
  }

  /** `onArrowLeftKeyOnMultiple` (line 515): one token to the left, never below 0. */
  function OnArrowLeftKeyOnMultiple(s: State, cfg: Config): (r: State)
    requires WellFormed(s, cfg)
    ensures WellFormed(r, cfg) && r.focusedMultipleOptionIndex >= 0
    ensures s.focusedMultipleOptionIndex >= 1 ==> r.focusedMultipleOptionIndex == s.focusedMultipleOptionIndex - 1
    ensures s.focusedMultipleOptionIndex < 1 ==> r.focusedMultipleOptionIndex == 0
    ensures r == s.(focusedMultipleOptionIndex := r.focusedMultipleOptionIndex)
    ensures WithinLimit(s, cfg) ==> WithinLimit(r, cfg)
  {
    s.(focusedMultipleOptionIndex := if s.focusedMultipleOptionIndex < 1 then 0 else s.focusedMultipleOptionIndex - 1)
  }

  /** `onArrowRightKeyOnMultiple` (line 519): one token to the right, and
      back to -1 (the input) once past the last token. */
  function OnArrowRightKeyOnMultiple(s: State, cfg: Config): (r: State)
    requires WellFormed(s, cfg)
    ensures WellFormed(r, cfg)
    ensures r.focusedMultipleOptionIndex == -1 || r.focusedMultipleOptionIndex == s.focusedMultipleOptionIndex + 1
    ensures r.focusedMultipleOptionIndex == -1 <==> s.focusedMultipleOptionIndex + 1 >= |Tokens(s.value)|
    ensures r.focusedMultipleOptionIndex < |Tokens(s.value)|
    ensures r == s.(focusedMultipleOptionIndex := r.focusedMultipleOptionIndex)
    ensures WithinLimit(s, cfg) ==> WithinLimit(r, cfg)
  {
    var next := s.focusedMultipleOptionIndex + 1;
    s.(focusedMultipleOptionIndex := if next > |Tokens(s.value)| - 1 then -1 else next)
  }

  /** `removeItem` (line 309): the value without its element at `index`
      goes through `updateModel`, then `onUnselect` gets the removed
      element. A value that is not an array makes the source throw before
      any effect; the model leaves the state alone. */
  function RemoveItem(s: State, cfg: Config, index: int): (r: State)
    requires WellFormed(s, cfg)
    ensures WellFormed(r, cfg)
    ensures WithinLimit(s, cfg) ==> WithinLimit(r, cfg)
  {
    if !s.value.Arr? then s
    else
      var removed := OptionAt(s.value.elems, index);
      var remaining := RemoveAt(s.value.elems, index);
      var s1 := UpdateModel(s, cfg, Arr(remaining));
      Emit(s1, cfg, Unselected(removed))
  }

  /** `removeOption` (line 323): as `removeItem`, and the widget becomes dirty. */
  function RemoveOption(s: State, cfg: Config, index: int): (r: State)
    requires WellFormed(s, cfg)
    ensures WellFormed(r, cfg)
    ensures WithinLimit(s, cfg) ==> WithinLimit(r, cfg)
  {
    if !s.value.Arr? then s
    else RemoveItem(s, cfg, index).(dirty := true)
  }

  /** `onBackspaceKeyOnMultiple` (line 530). */
  function OnBackspaceKeyOnMultiple(s: State, cfg: Config): (r: State)
    requires WellFormed(s, cfg)
    ensures WellFormed(r, cfg)
    ensures WithinLimit(s, cfg) ==> WithinLimit(r, cfg)
  {
    if s.focusedMultipleOptionIndex != -1 then RemoveOption(s, cfg, s.focusedMultipleOptionIndex) else s
  }

  /** `onMultipleContainerKeyDown` (line 826). */
  function OnMultipleContainerKeyDown(s: State, cfg: Config, key: Key): (r: State)
    requires WellFormed(s, cfg)
    ensures WellFormed(r, cfg)
    ensures cfg.disabled ==> r == s
    ensures WithinLimit(s, cfg) ==> WithinLimit(r, cfg)
  {
    if cfg.disabled then s
    else
      match key
      case ArrowLeft => OnArrowLeftKeyOnMultiple(s, cfg)
      case ArrowRight => OnArrowRightKeyOnMultiple(s, cfg)
      case Backspace => OnBackspaceKeyOnMultiple(s, cfg)
      case _ => s
  }

  /** Whether a Left arrow pressed in the input of the multiple mode goes on
      to the token list: `onArrowLeftKey` stops it (line 410) unless the
      input is empty and a value is present, and an unbound `onKeyDown`
      (line 1036) stops nothing. */
  predicate ArrowLeftBubbles(s: State, cfg: Config) {
    !KeysActive(s, cfg) || (s.inputText == "" && IsNotEmpty(s.value))
  }

  /** A Left arrow pressed in the input of the multiple mode, as written: the
      input's `onKeyDown` runs first and, when the event bubbles, the token
      list's handler (line 1070) runs with the token focus of the render the
      event started in; of the two token-focus writes the later is kept. */
  function ArrowLeftBubbled(s: State, cfg: Config): (r: State)
    requires WellFormed(s, cfg) && cfg.multiple
    ensures WellFormed(r, cfg)
    ensures r == OnKeyDown(s, cfg, ArrowLeft).(focusedMultipleOptionIndex := r.focusedMultipleOptionIndex)
    ensures WithinLimit(s, cfg) ==> WithinLimit(r, cfg)
  {
    var r1 := OnKeyDown(s, cfg, ArrowLeft);
    if ArrowLeftBubbles(s, cfg) then
      r1.(focusedMultipleOptionIndex := OnMultipleContainerKeyDown(s, cfg, ArrowLeft).focusedMultipleOptionIndex)
    else r1
  }

  /** The same event as the handlers evidently mean it: the token list's
      handler moves left from the token focus the input's handler has just
      set, one past the last token, so the last token is focused. */
  function ArrowLeftBubbledIntended(s: State, cfg: Config): (r: State)
    requires WellFormed(s, cfg) && cfg.multiple
    ensures WellFormed(r, cfg)
    ensures r == OnKeyDown(s, cfg, ArrowLeft).(focusedMultipleOptionIndex := r.focusedMultipleOptionIndex)
    ensures WithinLimit(s, cfg) ==> WithinLimit(r, cfg)
  {
    var r1 := OnKeyDown(s, cfg, ArrowLeft);
    if ArrowLeftBubbles(s, cfg) then OnMultipleContainerKeyDown(r1, cfg, ArrowLeft) else r1
  }

  /** `onMultipleContainerBlur` (line 815). */
  function OnMultipleContainerBlur(s: State, cfg: Config): (r: State)
    requires WellFormed(s, cfg)
    ensures WellFormed(r, cfg) && r == s.(focusedMultipleOptionIndex := -1)
    ensures WithinLimit(s, cfg) ==> WithinLimit(r, cfg)
  {
    s.(focusedMultipleOptionIndex := -1)
  }

  /** `search` (line 116): nothing for a null or undefined query, nothing for
      a blank query typed into the input; otherwise searching starts and
      `completeMethod` receives the query. */
  function Search(s: State, cfg: Config, query: Option<string>, source: Source): (r: State)
    requires WellFormed(s, cfg)
    ensures WellFormed(r, cfg)
    ensures WithinLimit(s, cfg) ==> WithinLimit(r, cfg)
  {
    if query.None? then s
    else if source == FromInput && Trim(query.value) == "" then s
    else
      var s1 := s.(searching := true);
      if cfg.hasCompleteMethod then Emit(s1, cfg, Completed(query.value)) else s1
  }

  /** The number of `onClear` notifications in an event sequence. */
  function ClearCount(events: seq<Event>): nat {
    if events == [] then 0
    else ClearCount(events[..|events| - 1]) + (if events[|events| - 1] == Cleared then 1 else 0)
  }

  /** `onInput` (line 536): the pending search is cancelled; in single mode
      the typed text goes through `updateModel`; an empty query hides the
      overlay and fires `onClear`; a query of at least `minLength` clears the
      option focus and schedules a search; a shorter one only hides. */
  function OnInput(s: State, cfg: Config, text: string): (r: State)
    requires WellFormed(s, cfg)
    ensures WellFormed(r, cfg)
    ensures WithinLimit(s, cfg) ==> WithinLimit(r, cfg)
  {
    var s1 := TypedModel(s, cfg, text);
    if text == "" then
      Emit(Hide(s1, cfg, false), cfg, Cleared)
    else if Utf16Length(text) >= cfg.minLength then
      s1.(focusedOptionIndex := -1, pendingSearch := Some(text))
    else
      Hide(s1, cfg, false)
  }

  /** The first part of `onInput` (lines 537-544): the pending search is
      cancelled, the input holds the text and, in single mode, the text
      goes through `updateModel`. */
  function TypedModel(s: State, cfg: Config, text: string): (r: State)
    requires WellFormed(s, cfg)
    ensures WellFormed(r, cfg)
    ensures r == s.(pendingSearch := None, inputText := text, events := r.events, selectedItem := r.selectedItem)
    ensures WithinLimit(s, cfg) ==> WithinLimit(r, cfg)
  {
    var s0 := s.(pendingSearch := None, inputText := text);
    if !cfg.multiple then UpdateModel(s0, cfg, Str(text)) else s0
  }

  /** The debounce timer firing: the scheduled query is searched as typed input. */
  function FireSearchTimer(s: State, cfg: Config): (r: State)
    requires WellFormed(s, cfg)
    ensures WellFormed(r, cfg)
    ensures WithinLimit(s, cfg) ==> WithinLimit(r, cfg)
  {
    match s.pendingSearch
    case None => s
    case Some(q) => Search(s.(pendingSearch := None), cfg, Some(q), FromInput)
  }

  /** `onDropdownClick` (line 293): a blank or a current-text search from the
      dropdown source, then `onDropdownClick` with the input's text. */
  function OnDropdownClick(s: State, cfg: Config): (r: State)
    requires WellFormed(s, cfg)
    ensures WellFormed(r, cfg)
    ensures WithinLimit(s, cfg) ==> WithinLimit(r, cfg)
  {
    var s1 :=
      match cfg.dropdownMode
      case Blank => Search(s, cfg, Some(""), FromDropdown)
      case Current => Search(s, cfg, Some(s.inputText), FromDropdown)
      case Other => s;
    Emit(s1, cfg, DropdownClicked(s.inputText))
  }

  /** `onChange` of the input (line 93), active with `forceSelection`: in
      single mode a valid option whose label equals the text (case aside) is
      selected unless it already is; without such an option, or in
      multiple mode, the input is cleared, `onClear` fires and, in single
      mode, the value is nulled. */
  function OnChange(s: State, cfg: Config): (r: State)
    requires WellFormed(s, cfg)
    ensures WellFormed(r, cfg)
    ensures WithinLimit(s, cfg) ==> WithinLimit(r, cfg)
  {
    if !cfg.forceSelection || !MoreAllowed(s, cfg) then s else ForcedChange(s, cfg)
  }

  /** The body of `onChange` under `forceSelection` (lines 95-112). */
  function ForcedChange(s: State, cfg: Config): (r: State)
    requires WellFormed(s, cfg)
    ensures WellFormed(r, cfg)
    ensures WithinLimit(s, cfg) && MoreAllowed(s, cfg) ==> WithinLimit(r, cfg)
  {
      var matched := if !cfg.multiple then MatchTypedOption(Visible(s), cfg, s.inputText) else None;
      match matched
      case Some(m) => if !IsSelected(s.value, m) then OnOptionSelect(s, cfg, m, true) else s
      case None =>
        var s1 := Emit(s, cfg, Cleared).(inputText := "");
        if !cfg.multiple then UpdateModel(s1, cfg, Null) else s1
  }

  /** `forceItemSelection` (line 770): in multiple mode only the input is
      cleared; otherwise the first suggestion whose text equals the trimmed
      input is selected without hiding, and failing that the input is
      cleared, the value nulled and `onClear` fired. */
  function ForceItemSelection(s: State, cfg: Config): (r: State)
    requires WellFormed(s, cfg)
    ensures WellFormed(r, cfg)
    ensures WithinLimit(s, cfg) ==> WithinLimit(r, cfg)
  {
    if cfg.multiple then s.(inputText := "")
    else
      match ForceMatch(s.suggestions, cfg, s.inputText)
      case Some(item) => SelectItem(s, cfg, item, true)
      case None => Emit(UpdateModel(s.(inputText := ""), cfg, Null), cfg, Cleared)
  }

  /** `onBlur` (line 794). */
  function OnBlur(s: State, cfg: Config): (r: State)
    requires WellFormed(s, cfg)
    ensures WellFormed(r, cfg)
    ensures WithinLimit(s, cfg) ==> WithinLimit(r, cfg)
  {
    var s1 := s.(focusedOptionIndex := -1);
    if cfg.forceSelection then ForceItemSelection(s1, cfg) else s1
  }

  /** `onFocus` (line 747): a first focus may search the current text; the
      widget becomes dirty; while the overlay is shown the option focus is
      kept, or set to the first focused option with `autoOptionFocus`. */
  function OnFocus(s: State, cfg: Config): (r: State)
    requires WellFormed(s, cfg)
    ensures WellFormed(r, cfg)
    ensures WithinLimit(s, cfg) ==> WithinLimit(r, cfg)
  {
    if cfg.disabled then s
    else
      var s1 := if !s.dirty && cfg.completeOnFocus then Search(s, cfg, Some(s.inputText), FromFocus) else s;
      var s2 := s1.(dirty := true);
      if s.overlayVisible then
        s2.(focusedOptionIndex :=
              if s.focusedOptionIndex != -1 then s.focusedOptionIndex
              else if cfg.autoOptionFocus then FindFirstFocusedOptionIndex(Visible(s), cfg, s.value)
              else -1)
      else s2
  }

  /** `onContainerClick` (line 281): only `clicked` is component state. */
  function OnContainerClick(s: State, cfg: Config): (r: State)
    requires WellFormed(s, cfg)
    ensures WellFormed(r, cfg) && r == s.(clicked := true)
    ensures WithinLimit(s, cfg) ==> WithinLimit(r, cfg)
  {
    s.(clicked := true)
  }

  /** The host re-rendering with a new `value`: the single-mode input shows
      it (line 900) and, in multiple mode, an empty value resets the
      recorded item (line 1007). */
  function SetValue(s: State, cfg: Config, v: Val): (r: State)
    requires WellFormed(s, cfg) && ValueFits(v, cfg)
    ensures WellFormed(r, cfg)
    ensures WithinLimit(s, cfg) && Fits(v, cfg) ==> WithinLimit(r, cfg)
  {
    var s1 := s.(value := v);
    if cfg.multiple then (if !IsNotEmpty(v) then s1.(selectedItem := Null) else s1)
    else s1.(inputText := FormatValue(v, cfg))
  }

  /** `ObjectUtils.isNotEmpty(props.suggestions)`. */
  predicate SuggestionsNotEmpty(sug: Suggestions) {
    match sug
    case Flat(items) => items != []
    case Grouped(groups) => groups != []
  }

  /** Suggestions arriving from the host (line 891): a pending search ends,
      showing the overlay when there are candidates or an empty message is
      configured and hiding it otherwise. */
  function SetSuggestions(s: State, cfg: Config, sug: Suggestions): (r: State)
    requires WellFormed(s, cfg) && SuggestionsFit(sug, cfg)
    ensures WellFormed(r, cfg)
    ensures WithinLimit(s, cfg) ==> WithinLimit(r, cfg)
  {
    var s1 := s.(suggestions := sug);
    if s.searching then
      var s2 := if SuggestionsNotEmpty(sug) || cfg.showEmptyMessage then Show(s1, cfg) else Hide(s1, cfg, false);
      s2.(searching := false)
    else s1
  }

  /** Every event the widget reacts to, the two timers and the host's
      re-renders included. */
  datatype Action =
    | KeyDown(key: Key)
    | TokenKeyDown(key: Key)
    | TokensBlur
    | Typed(text: string)
    | InputChange
    | Blur
    | Focus
    | ContainerClick
    | DropdownClick
    | ItemClick(option: Val)
    | TokenIconClick(index: int)
    | SearchTimerFired
    | HideTimerFired
    | HostValue(v: Val)
    | HostSuggestions(sug: Suggestions)

  predicate ActionFits(a: Action, cfg: Config) {
    match a
    case HostValue(v) => ValueFits(v, cfg)
    case HostSuggestions(sug) => SuggestionsFit(sug, cfg)
    case _ => true
  }

  function Step(s: State, cfg: Config, a: Action): (r: State)
    requires WellFormed(s, cfg) && ActionFits(a, cfg)
    ensures WellFormed(r, cfg)
  {
    match a
    case KeyDown(key) => OnKeyDown(s, cfg, key)
    case TokenKeyDown(key) => OnMultipleContainerKeyDown(s, cfg, key)
    case TokensBlur => OnMultipleContainerBlur(s, cfg)
    case Typed(text) => OnInput(s, cfg, text)
    case InputChange => OnChange(s, cfg)
    case Blur => OnBlur(s, cfg)
    case Focus => OnFocus(s, cfg)
    case ContainerClick => OnContainerClick(s, cfg)
    case DropdownClick => OnDropdownClick(s, cfg)
    case ItemClick(option) => SelectItem(s, cfg, option, false)
    case TokenIconClick(index) => RemoveItem(s, cfg, index)
    case SearchTimerFired => FireSearchTimer(s, cfg)
    case HideTimerFired => RunHide(s, cfg)
    case HostValue(v) => SetValue(s, cfg, v)
    case HostSuggestions(sug) => SetSuggestions(s, cfg, sug)
  }

  /** Whatever the user does, no notification ever carries more tokens
      than the selection limit, as long as the host only ever sets values
      within it. */
  lemma StepKeepsWithinLimit(s: State, cfg: Config, a: Action)
    requires WellFormed(s, cfg) && ActionFits(a, cfg) && WithinLimit(s, cfg)
    requires a.HostValue? ==> Fits(a.v, cfg)
    ensures WithinLimit(Step(s, cfg, a), cfg)
  {
  }

  /** A run of actions from a state. */
  function Run(s: State, cfg: Config, actions: seq<Action>): (r: State)
    requires WellFormed(s, cfg) && forall i :: 0 <= i < |actions| ==> ActionFits(actions[i], cfg)
    ensures WellFormed(r, cfg)
    decreases |actions|
  {
    if actions == [] then s else Run(Step(s, cfg, actions[0]), cfg, actions[1..])
  }

  /** Over any run in which the host only sets values within the limit,
      every value notified stays within the limit. */
  lemma {:induction false} RunKeepsWithinLimit(s: State, cfg: Config, actions: seq<Action>)
    requires WellFormed(s, cfg) && WithinLimit(s, cfg)
    requires forall i :: 0 <= i < |actions| ==> ActionFits(actions[i], cfg)
    requires forall i :: 0 <= i < |actions| && actions[i].HostValue? ==> Fits(actions[i].v, cfg)
    ensures WithinLimit(Run(s, cfg, actions), cfg)
    decreases |actions|
  {
    if actions != [] {
      StepKeepsWithinLimit(s, cfg, actions[0]);
      RunKeepsWithinLimit(Step(s, cfg, actions[0]), cfg, actions[1..]);
    }
  }
}
