/** What the event handlers of the state machine promise: notification
    without repeats, selection and removal of tokens, option focus moving
    between valid options, the gating of searches, force selection and the
    deferred hide. */
module Behaviour {
  import opened Values
  import opened Options
  import opened Selection
  import opened Machine

  /** `updateModel` never notifies twice in succession with the same
      value: while the last notified value is still recorded, notifying it
      again is dropped. */
  lemma NoRepeatedNotification(s: State, cfg: Config, v: Val)
    requires WellFormed(s, cfg) && s.selectedItem != Null && LastChange(s.events) == Some(v)
    ensures UpdateModel(s, cfg, v).events == s.events
  {
    NotEmptyIsTruthy(v);
  }

  /** Two `updateModel` calls with the same non-empty value notify once. */
  lemma UpdateTwiceNotifiesOnce(s: State, cfg: Config, v: Val)
    requires WellFormed(s, cfg) && IsNotEmpty(v)
    ensures UpdateModel(UpdateModel(s, cfg, v), cfg, v).events == UpdateModel(s, cfg, v).events
  {
    NoRepeatedNotification(UpdateModel(s, cfg, v), cfg, v);
  }

  /** In multiple mode an option that the whole value does not deep-equal
      is appended to the tokens as the last one (unless that very array is
      still recorded), with no limit check. */
  lemma OptionSelectAppendsToken(s: State, cfg: Config, option: Val, isHide: bool)
    requires WellFormed(s, cfg) && cfg.multiple && s.value != option
    ensures var r := OnOptionSelect(s, cfg, option, isHide);
            && r.value == s.value && r.inputText == ""
            && r.pendingHides == s.pendingHides + (if isHide then [true] else [])
            && (r.events == s.events + [Changed(Arr(Tokens(s.value) + [option]))] ||
                (r.events == s.events && s.selectedItem == Arr(Tokens(s.value) + [option])))
  {
    var v := Arr(Tokens(s.value) + [option]);
    assert OptionSelectMultiple(s.value, option) == Some(v);
    var s1 := UpdateModel(s.(inputText := ""), cfg, v);
    assert OptionSelectModel(s, cfg, option) == s1;
  }

  /** In multiple mode an option the whole value deep-equals is selected
      already: only the input text and the pending hide change. */
  lemma OptionSelectSkipsSelected(s: State, cfg: Config, option: Val, isHide: bool)
    requires WellFormed(s, cfg) && cfg.multiple && s.value == option
    ensures var r := OnOptionSelect(s, cfg, option, isHide);
            r == s.(inputText := "", pendingHides := s.pendingHides + (if isHide then [true] else []))
  {
  }

  /** Choosing an option that is already a token appends it again: the
      value notified holds that token twice. */
  lemma OptionSelectRepeatsToken(s: State, cfg: Config, option: Val, isHide: bool)
    requires WellFormed(s, cfg) && cfg.multiple && option in Tokens(s.value)
    ensures var r := OnOptionSelect(s, cfg, option, isHide);
            var v := Arr(Tokens(s.value) + [option]);
            && !Distinct(v.elems)
            && (r.events == s.events + [Changed(v)] || (r.events == s.events && s.selectedItem == v))
  {
    DuplicateOptionAsWritten(Tokens(s.value), option);
    OptionSelectAppendsToken(s, cfg, option, isHide);
  }

  /** In single mode the chosen option itself is notified. */
  lemma OptionSelectSingle(s: State, cfg: Config, option: Val, isHide: bool)
    requires WellFormed(s, cfg) && !cfg.multiple
    ensures var r := OnOptionSelect(s, cfg, option, isHide);
            && r.value == s.value && r.inputText == s.inputText
            && r.pendingHides == s.pendingHides + (if isHide then [true] else [])
            && (r.events == s.events + [Changed(option)] || (r.events == s.events && s.selectedItem == option))
  {
  }

  /** `selectItem` leaves the value, the suggestions and the focus alone,
      clears the input (multiple mode) or shows the option in it (single
      mode), and hides the overlay unless the caller prevents it. */
  lemma SelectItemInput(s: State, cfg: Config, option: Val, preventInputFocus: bool)
    requires WellFormed(s, cfg)
    ensures var r := SelectItem(s, cfg, option, preventInputFocus);
            && r.value == s.value && r.suggestions == s.suggestions
            && r.focusedOptionIndex == s.focusedOptionIndex && r.overlayVisible == s.overlayVisible
            && r.pendingHides == s.pendingHides + (if preventInputFocus then [] else [false])
            && r.inputText == (if cfg.multiple then "" else FormatValue(option, cfg))
  {
  }

  /** `selectItem` notifies `onSelect` last; before it, the value with the
      option appended (multiple mode) or the option (single mode) may be
      notified. */
  lemma SelectItemEvents(s: State, cfg: Config, option: Val, preventInputFocus: bool)
    requires WellFormed(s, cfg)
    ensures var r := SelectItem(s, cfg, option, preventInputFocus);
            var notified := if cfg.multiple then Arr(Tokens(s.value) + [option]) else option;
            r.events == s.events + [Selected(option)] || r.events == s.events + [Changed(notified), Selected(option)]
  {
    SelectItemEventsLast(s, cfg, option, preventInputFocus);
    if cfg.multiple {
      SelectItemModelEffect(s, cfg, option);
    }
  }

  /** `selectItem`'s events are those of its value part, then `onSelect`. */
  lemma SelectItemEventsLast(s: State, cfg: Config, option: Val, preventInputFocus: bool)
    requires WellFormed(s, cfg)
    ensures var s1 := if cfg.multiple then SelectItemModel(s, cfg, option)
                      else UpdateModel(s.(inputText := FormatValue(option, cfg)), cfg, option);
            SelectItem(s, cfg, option, preventInputFocus).events == s1.events + [Selected(option)]
  {
  }

  /** The value part of `selectItem` in multiple mode notifies, if anything,
      the tokens with the option appended: it does so exactly when the whole
      value does not deep-equal the option and the limit is not reached
      (unless that array is still recorded). */
  lemma SelectItemModelEffect(s: State, cfg: Config, option: Val)
    requires WellFormed(s, cfg) && cfg.multiple
    ensures var r := SelectItemModel(s, cfg, option);
            r.events == s.events || r.events == s.events + [Changed(Arr(Tokens(s.value) + [option]))]
    ensures s.value == option || (cfg.selectionLimit > 0 && |Tokens(s.value)| >= cfg.selectionLimit) ==>
              SelectItemModel(s, cfg, option).events == s.events
    ensures var r := SelectItemModel(s, cfg, option);
            var v := Arr(Tokens(s.value) + [option]);
            s.value != option && (cfg.selectionLimit == 0 || |Tokens(s.value)| < cfg.selectionLimit) ==>
              (r.events == s.events + [Changed(v)] || (r.events == s.events && s.selectedItem == v))
  {
  }

  /** In multiple mode an option the whole value deep-equals, or one beyond
      the selection limit, is reported through `onSelect` only. */
  lemma SelectItemRefusesSelectedOrLimit(s: State, cfg: Config, option: Val, preventInputFocus: bool)
    requires WellFormed(s, cfg) && cfg.multiple
    requires s.value == option || (cfg.selectionLimit > 0 && |Tokens(s.value)| >= cfg.selectionLimit)
    ensures SelectItem(s, cfg, option, preventInputFocus).events == s.events + [Selected(option)]
  {
  }

  /** Below the limit, clicking an item that is already a token appends it
      again: the value notified holds that token twice, then `onSelect` fires. */
  lemma SelectItemRepeatsToken(s: State, cfg: Config, option: Val, preventInputFocus: bool)
    requires WellFormed(s, cfg) && cfg.multiple && option in Tokens(s.value)
    requires cfg.selectionLimit == 0 || |Tokens(s.value)| < cfg.selectionLimit
    ensures var r := SelectItem(s, cfg, option, preventInputFocus);
            var v := Arr(Tokens(s.value) + [option]);
            && !Distinct(v.elems)
            && (r.events == s.events + [Changed(v), Selected(option)] ||
                (r.events == s.events + [Selected(option)] && s.selectedItem == v))
  {
    DuplicateTokenAsWritten(Tokens(s.value), option, cfg.selectionLimit);
    SelectItemModelEffect(s, cfg, option);
    SelectItemEventsLast(s, cfg, option, preventInputFocus);
  }

  /** Down arrow: nothing while the overlay is hidden; otherwise, without
      select-on-focus, only the option focus moves, forward and to a valid
      option, and it lands on one whenever an option is valid. */
  lemma ArrowDownMovesFocus(s: State, cfg: Config)
    requires WellFormed(s, cfg) && !cfg.selectOnFocus && !cfg.autoHighlight
    ensures !s.overlayVisible ==> OnArrowDownKey(s, cfg) == s
    ensures var r := OnArrowDownKey(s, cfg);
            s.overlayVisible ==>
              && r == s.(focusedOptionIndex := DownTarget(s, cfg))
              && (r.focusedOptionIndex == s.focusedOptionIndex || ValidAt(Visible(s), cfg, r.focusedOptionIndex))
              && (s.focusedOptionIndex >= 0 ==> r.focusedOptionIndex >= s.focusedOptionIndex)
              && ((exists j :: ValidAt(Visible(s), cfg, j)) ==> r.focusedOptionIndex != -1)
  {
  }

  /** Up arrow without Alt: the mirror image, moving backward. */
  lemma ArrowUpMovesFocus(s: State, cfg: Config)
    requires WellFormed(s, cfg) && !cfg.selectOnFocus && !cfg.autoHighlight
    ensures !s.overlayVisible ==> OnArrowUpKey(s, cfg, false) == s
    ensures var r := OnArrowUpKey(s, cfg, false);
            s.overlayVisible ==>
              && r == s.(focusedOptionIndex := UpTarget(s, cfg))
              && (r.focusedOptionIndex == s.focusedOptionIndex || ValidAt(Visible(s), cfg, r.focusedOptionIndex))
              && (s.focusedOptionIndex >= 0 ==> r.focusedOptionIndex <= s.focusedOptionIndex)
              && ((exists j :: ValidAt(Visible(s), cfg, j)) ==> r.focusedOptionIndex != -1)
  {
  }

  /** With select-on-focus (or auto-highlight) in single mode, moving the
      focus to a new option notifies that option and hides nothing. */
  lemma FocusSelectsOption(s: State, cfg: Config, index: int)
    requires WellFormed(s, cfg) && index >= -1 && index != s.focusedOptionIndex
    requires (cfg.selectOnFocus || cfg.autoHighlight) && !cfg.multiple
    ensures var r := ChangeFocusedOptionIndex(s, cfg, index);
            && r.focusedOptionIndex == index && r.pendingHides == s.pendingHides
            && (r.events == s.events + [Changed(OptionAt(Visible(s), index))] ||
                (r.events == s.events && s.selectedItem == OptionAt(Visible(s), index)))
  {
  }

  /** Down, Down, Up on an open list of valid options with nothing selected
      and no selection on focus: the first Down focuses the first option
      and the Up comes back to it. */
  lemma DownDownUp(s: State, cfg: Config)
    requires WellFormed(s, cfg) && KeysActive(s, cfg) && s.overlayVisible && s.focusedOptionIndex == -1
    requires !cfg.selectOnFocus && !cfg.autoHighlight
    requires |Visible(s)| >= 1 && forall j :: 0 <= j < |Visible(s)| ==> IsValidOption(Visible(s)[j], cfg)
    requires forall j :: !ValidSelectedAt(Visible(s), cfg, s.value, j)
    ensures var s1 := OnKeyDown(s, cfg, ArrowDown);
            var s2 := OnKeyDown(s1, cfg, ArrowDown);
            var s3 := OnKeyDown(s2, cfg, ArrowUp(false));
            s1.focusedOptionIndex == 0 && s3.focusedOptionIndex == 0 && s3.value == s.value
  {
    FirstDownFocusesFirst(s, cfg);
    DownThenUpReturns(OnKeyDown(s, cfg, ArrowDown), cfg);
  }

  /** The first step of `DownDownUp`: Down from no focus lands on option 0. */
  lemma FirstDownFocusesFirst(s: State, cfg: Config)
    requires WellFormed(s, cfg) && KeysActive(s, cfg) && s.overlayVisible && s.focusedOptionIndex == -1
    requires !cfg.selectOnFocus && !cfg.autoHighlight
    requires |Visible(s)| >= 1 && forall j :: 0 <= j < |Visible(s)| ==> IsValidOption(Visible(s)[j], cfg)
    requires forall j :: !ValidSelectedAt(Visible(s), cfg, s.value, j)
    ensures OnKeyDown(s, cfg, ArrowDown) == s.(focusedOptionIndex := 0, clicked := false)
  {
    assert ValidAt(Visible(s), cfg, 0);
    ArrowDownMovesFocus(s, cfg);
    assert DownTarget(s, cfg) == 0;
    assert OnKeyDown(s, cfg, ArrowDown) == OnArrowDownKey(s, cfg).(clicked := false);
  }

  /** The rest of `DownDownUp`: from the first option, valid, Down then Up
      comes back to it. */
  lemma DownThenUpReturns(s1: State, cfg: Config)
    requires WellFormed(s1, cfg) && KeysActive(s1, cfg) && s1.overlayVisible
    requires !cfg.selectOnFocus && !cfg.autoHighlight
    requires s1.focusedOptionIndex == 0 && ValidAt(Visible(s1), cfg, 0)
    ensures var s2 := OnKeyDown(s1, cfg, ArrowDown);
            var s3 := OnKeyDown(s2, cfg, ArrowUp(false));
            s3.focusedOptionIndex == 0 && s3.value == s1.value
  {
    var opts := Visible(s1);
    var s2 := OnKeyDown(s1, cfg, ArrowDown);
    ArrowDownMovesFocus(s1, cfg);
    assert s2 == OnArrowDownKey(s1, cfg).(clicked := false);
    if s2.focusedOptionIndex != 0 {
      NextThenPrev(opts, cfg, 0);
    }
    ArrowUpMovesFocus(s2, cfg);
    assert OnKeyDown(s2, cfg, ArrowUp(false)) == OnArrowUpKey(s2, cfg, false).(clicked := false);
  }

  /** Enter with the overlay hidden does not open it: only the option
      focus is cleared. */
  lemma EnterWhileHidden(s: State, cfg: Config)
    requires WellFormed(s, cfg) && KeysActive(s, cfg) && !s.overlayVisible
    ensures OnKeyDown(s, cfg, Enter) == s.(focusedOptionIndex := -1, clicked := false)
  {
  }

  /** Enter on a focused option in single mode notifies it and queues two
      hides: the one `onOptionSelect` asks for and the one after it. */
  lemma EnterSelectsFocused(s: State, cfg: Config)
    requires WellFormed(s, cfg) && KeysActive(s, cfg) && s.overlayVisible && s.focusedOptionIndex != -1 && !cfg.multiple
    ensures var r := OnKeyDown(s, cfg, Enter);
            var option := OptionAt(Visible(s), s.focusedOptionIndex);
            && r.pendingHides == s.pendingHides + [true, false]
            && (r.events == s.events + [Changed(option)] || (r.events == s.events && s.selectedItem == option))
  {
    OptionSelectSingle(s, cfg, OptionAt(Visible(s), s.focusedOptionIndex), true);
  }

  /** Alt+Up on an open overlay in single mode selects the focused option,
      asking for a hide, and hides once more; with no focused option it
      only hides; on a hidden overlay it does nothing. */
  lemma AltUpSelectsFocused(s: State, cfg: Config)
    requires WellFormed(s, cfg) && !cfg.multiple
    ensures !s.overlayVisible ==> OnArrowUpKey(s, cfg, true) == s
    ensures s.overlayVisible && s.focusedOptionIndex == -1 ==>
              OnArrowUpKey(s, cfg, true) == s.(pendingHides := s.pendingHides + [false])
    ensures var r := OnArrowUpKey(s, cfg, true);
            var option := OptionAt(Visible(s), s.focusedOptionIndex);
            s.overlayVisible && s.focusedOptionIndex != -1 ==>
              && r.value == s.value && r.focusedOptionIndex == s.focusedOptionIndex
              && r.pendingHides == s.pendingHides + [true, false]
              && (r.events == s.events + [Changed(option)] || (r.events == s.events && s.selectedItem == option))
  {
    if s.overlayVisible && s.focusedOptionIndex != -1 {
      OptionSelectSingle(s, cfg, OptionAt(Visible(s), s.focusedOptionIndex), true);
    }
  }

  /** Tab in single mode selects the focused option, asking for a hide, and
      hides once more while the overlay is shown; with no focused option it
      only hides an open overlay. */
  lemma TabSelectsFocused(s: State, cfg: Config)
    requires WellFormed(s, cfg) && !cfg.multiple
    ensures var closing := if s.overlayVisible then [false] else [];
            s.focusedOptionIndex == -1 ==> OnTabKey(s, cfg) == s.(pendingHides := s.pendingHides + closing)
    ensures var r := OnTabKey(s, cfg);
            var option := OptionAt(Visible(s), s.focusedOptionIndex);
            var closing := if s.overlayVisible then [false] else [];
            s.focusedOptionIndex != -1 ==>
              && r.value == s.value && r.focusedOptionIndex == s.focusedOptionIndex
              && r.pendingHides == s.pendingHides + [true] + closing
              && (r.events == s.events + [Changed(option)] || (r.events == s.events && s.selectedItem == option))
  {
    if s.focusedOptionIndex != -1 {
      OptionSelectSingle(s, cfg, OptionAt(Visible(s), s.focusedOptionIndex), true);
    }
  }

  /** Escape hides an open overlay, and the hide leaves the widget dirty;
      on a hidden overlay it does nothing but reset `clicked`. */
  lemma EscapeHides(s: State, cfg: Config)
    requires WellFormed(s, cfg) && KeysActive(s, cfg) && s.pendingHides == []
    ensures !s.overlayVisible ==> OnKeyDown(s, cfg, Escape) == s.(clicked := false)
    ensures var r := RunHide(OnKeyDown(s, cfg, Escape), cfg);
            s.overlayVisible ==> !r.overlayVisible && r.dirty && r.focusedOptionIndex == -1 && r.events == s.events
  {
  }

  /** A scheduled hide, once run, closes the overlay and clears the focus;
      its argument becomes `dirty`. */
  lemma HideThenRun(s: State, cfg: Config, isFocus: bool)
    requires WellFormed(s, cfg) && s.pendingHides == []
    ensures var r := RunHide(Hide(s, cfg, isFocus), cfg);
            r == s.(overlayVisible := false, dirty := isFocus, clicked := false, focusedOptionIndex := -1)
  {
  }

  /** In multiple mode, once the selection limit is reached, the input's own
      key handler is unbound and changes nothing. */
  lemma KeysIgnoredAtLimit(s: State, cfg: Config, key: Key)
    requires WellFormed(s, cfg) && cfg.multiple && cfg.selectionLimit > 0
    requires s.value.Arr? && |s.value.elems| >= cfg.selectionLimit
    ensures OnKeyDown(s, cfg, key) == s
  {
    assert !KeysActive(s, cfg);
  }

  /** At the limit a Left arrow in the input still bubbles to the token
      list, which is always bound: with no token focused, token 0 becomes
      focused, although the input's handler did nothing. */
  lemma LeftAtLimitMovesTokenFocus(s: State, cfg: Config)
    requires WellFormed(s, cfg) && cfg.multiple && !cfg.disabled && cfg.selectionLimit > 0
    requires s.value.Arr? && |s.value.elems| >= cfg.selectionLimit
    requires s.focusedMultipleOptionIndex == -1
    ensures OnKeyDown(s, cfg, ArrowLeft) == s
    ensures ArrowLeftBubbled(s, cfg) == s.(focusedMultipleOptionIndex := 0)
  {
    assert !KeysActive(s, cfg);
  }

  /** Right arrow on the token list runs through the tokens and then back
      to the input (-1); it never points past the last token. */
  lemma ArrowRightLeavesTokens(s: State, cfg: Config)
    requires WellFormed(s, cfg) && !cfg.disabled
    requires s.focusedMultipleOptionIndex == |Tokens(s.value)| - 1
    ensures OnMultipleContainerKeyDown(s, cfg, ArrowRight).focusedMultipleOptionIndex == -1
  {
  }

  /** As written, a Left arrow in the empty input of the multiple mode, with
      no token focused, ends on the first token whatever the token count:
      the token list's handler, reading the old focus -1, overwrites the
      count the input's handler set. */
  lemma ArrowLeftFocusesFirstTokenAsWritten(s: State, cfg: Config)
    requires WellFormed(s, cfg) && cfg.multiple && KeysActive(s, cfg)
    requires s.inputText == "" && s.value.Arr? && |s.value.elems| >= 2
    requires s.focusedMultipleOptionIndex == -1
    ensures ArrowLeftBubbled(s, cfg).focusedMultipleOptionIndex == 0
    ensures ArrowLeftBubbledIntended(s, cfg).focusedMultipleOptionIndex == |s.value.elems| - 1 > 0
  {
    ArrowLeftFocusesLastToken(s, cfg);
  }

  /** As intended, a Left arrow in the empty input of the multiple mode
      focuses the last token and clears the option focus; with text in the
      input the token focus is left alone. */
  lemma ArrowLeftFocusesLastToken(s: State, cfg: Config)
    requires WellFormed(s, cfg) && cfg.multiple && KeysActive(s, cfg)
    ensures var r := ArrowLeftBubbledIntended(s, cfg);
            && r.focusedOptionIndex == -1
            && (s.inputText == "" && IsNotEmpty(s.value) ==> r.focusedMultipleOptionIndex == |s.value.elems| - 1)
            && (s.inputText != "" ==> r.focusedMultipleOptionIndex == s.focusedMultipleOptionIndex)
  {
    var r1 := OnKeyDown(s, cfg, ArrowLeft);
    assert r1 == OnArrowLeftKey(s, cfg).(clicked := false);
  }

  /** Removing a token notifies the tokens without exactly that one (in
      order, every other kept) unless that array is still recorded, then
      reports the removed token through `onUnselect`. */
  lemma RemoveItemEffect(s: State, cfg: Config, index: int)
    requires WellFormed(s, cfg) && s.value.Arr? && 0 <= index < |s.value.elems|
    ensures var r := RemoveItem(s, cfg, index);
            var e := s.value.elems;
            var rest := e[..index] + e[index + 1..];
            && r.value == s.value && r.inputText == s.inputText && r.dirty == s.dirty
            && (r.events == s.events + [Changed(Arr(rest)), Unselected(e[index])] ||
                (r.events == s.events + [Unselected(e[index])] && s.selectedItem == Arr(rest)))
            && |rest| == |e| - 1 && multiset(rest) + multiset{e[index]} == multiset(e)
  {
    RemoveAtMultiset(s.value.elems, index);
  }

  /** `removeOption` notifies the tokens without exactly the one at the
      index (unless that array is still recorded), reports the removed one
      through `onUnselect` and leaves the widget dirty. */
  lemma RemoveOptionEffect(s: State, cfg: Config, index: int)
    requires WellFormed(s, cfg) && s.value.Arr? && 0 <= index < |s.value.elems|
    ensures var r := RemoveOption(s, cfg, index);
            var e := s.value.elems;
            var rest := e[..index] + e[index + 1..];
            && r.value == s.value && r.inputText == s.inputText && r.dirty
            && (r.events == s.events + [Changed(Arr(rest)), Unselected(e[index])] ||
                (r.events == s.events + [Unselected(e[index])] && s.selectedItem == Arr(rest)))
  {
    RemoveItemEffect(s, cfg, index);
  }

  /** Backspace on a focused token removes exactly that token and leaves the
      widget dirty; the removal is notified unless that array is still recorded. */
  lemma BackspaceRemovesFocusedToken(s: State, cfg: Config)
    requires WellFormed(s, cfg) && !cfg.disabled && s.value.Arr?
    requires 0 <= s.focusedMultipleOptionIndex < |s.value.elems|
    ensures var r := OnMultipleContainerKeyDown(s, cfg, Backspace);
            var e := s.value.elems;
            var k := s.focusedMultipleOptionIndex;
            && r.value == s.value && r.dirty
            && (r.events == s.events + [Changed(Arr(e[..k] + e[k + 1..])), Unselected(e[k])] ||
                (r.events == s.events + [Unselected(e[k])] && s.selectedItem == Arr(e[..k] + e[k + 1..])))
  {
    RemoveOptionEffect(s, cfg, s.focusedMultipleOptionIndex);
  }

  /** An empty query hides the overlay, cancels any pending search and fires `onClear` once. */
  lemma EmptyInputClears(s: State, cfg: Config)
    requires WellFormed(s, cfg)
    ensures var r := OnInput(s, cfg, "");
            && r.inputText == "" && r.pendingSearch.None?
            && r.pendingHides == s.pendingHides + [false]
            && |r.events| >= 1 && r.events[|r.events| - 1] == Cleared
            && ClearCount(r.events) == ClearCount(s.events) + 1
  {
  }

  /** A query shorter than `minLength` hides the overlay and schedules no
      search, so the debounce timer that follows completes nothing. */
  lemma ShortInputNeverSearches(s: State, cfg: Config, text: string)
    requires WellFormed(s, cfg) && 0 < Utf16Length(text) < cfg.minLength
    ensures var r := OnInput(s, cfg, text);
            && r.inputText == text && r.pendingSearch.None?
            && r.pendingHides == s.pendingHides + [false]
            && FireSearchTimer(r, cfg) == r
            && (r.events == s.events || (!cfg.multiple && r.events == s.events + [Changed(Str(text))]))
  {
  }

  /** A query of at least `minLength` clears the option focus and schedules
      exactly that query; nothing completes before the timer fires. */
  lemma LongInputSchedulesSearch(s: State, cfg: Config, text: string)
    requires WellFormed(s, cfg) && text != "" && Utf16Length(text) >= cfg.minLength
    ensures var r := OnInput(s, cfg, text);
            && r.inputText == text && r.pendingSearch == Some(text)
            && r.focusedOptionIndex == -1 && r.pendingHides == s.pendingHides
            && (r.events == s.events || (!cfg.multiple && r.events == s.events + [Changed(Str(text))]))
  {
  }

  /** When the debounce timer fires, a query with a non-blank character
      starts searching and reaches `completeMethod`; a blank one does nothing. */
  lemma TimerCompletesQuery(s: State, cfg: Config, text: string)
    requires WellFormed(s, cfg) && s.pendingSearch == Some(text)
    ensures var r := FireSearchTimer(s, cfg);
            (exists i :: 0 <= i < |text| && !IsSpace(text[i])) ==>
              && r == s.(pendingSearch := None, searching := true, events := r.events)
              && r.events == s.events + (if cfg.hasCompleteMethod then [Completed(text)] else [])
    ensures (forall i :: 0 <= i < |text| ==> IsSpace(text[i])) ==> FireSearchTimer(s, cfg) == s.(pendingSearch := None)
  {
    TrimEmptyIffBlank(text);
  }

  /** A blank query typed into the input is ignored, while the dropdown
      searches whatever it is given (the empty query included). */
  lemma BlankQueryIgnoredOnlyFromInput(s: State, cfg: Config, q: string)
    requires WellFormed(s, cfg) && forall i :: 0 <= i < |q| ==> IsSpace(q[i])
    ensures Search(s, cfg, Some(q), FromInput) == s
    ensures Search(s, cfg, Some(q), FromDropdown).searching
  {
    TrimEmptyIffBlank(q);
  }

  /** A null or undefined query never searches. */
  lemma MissingQueryIgnored(s: State, cfg: Config, source: Source)
    requires WellFormed(s, cfg)
    ensures Search(s, cfg, None, source) == s
  {
  }

  /** The dropdown in blank mode completes the empty query, then reports the click. */
  lemma DropdownBlankSearch(s: State, cfg: Config)
    requires WellFormed(s, cfg) && cfg.dropdownMode == Blank && cfg.hasCompleteMethod
    ensures var r := OnDropdownClick(s, cfg);
            r.searching && r.events == s.events + [Completed(""), DropdownClicked(s.inputText)]
  {
  }

  /** The dropdown in current mode completes the text as typed, even a blank
      one, then reports the click; in any other mode it only reports it. */
  lemma DropdownCurrentSearch(s: State, cfg: Config)
    requires WellFormed(s, cfg) && cfg.hasCompleteMethod
    ensures var r := OnDropdownClick(s, cfg);
            && (cfg.dropdownMode == Current ==>
                  r.searching && r.events == s.events + [Completed(s.inputText), DropdownClicked(s.inputText)])
            && (cfg.dropdownMode == Other ==> r == s.(events := s.events + [DropdownClicked(s.inputText)]))
  {
  }

  /** Suggestions that end a search show the overlay when there is something
      (or an empty message) to show, and hide it otherwise; suggestions
      arriving outside a search change nothing else. */
  lemma SuggestionsEndSearch(s: State, cfg: Config, sug: Suggestions)
    requires WellFormed(s, cfg) && SuggestionsFit(sug, cfg)
    ensures var r := SetSuggestions(s, cfg, sug);
            && r.suggestions == sug && !r.searching
            && (s.searching && (SuggestionsNotEmpty(sug) || cfg.showEmptyMessage) ==> r.overlayVisible)
            && (s.searching && !(SuggestionsNotEmpty(sug) || cfg.showEmptyMessage) ==>
                  r.pendingHides == s.pendingHides + [false])
            && (!s.searching ==> r == s.(suggestions := sug))
  {
  }

  /** Leaving the field with force selection in single mode: when a
      suggestion's text equals the trimmed input it is selected without
      hiding; otherwise the input is emptied, null is notified (a null
      value is never suppressed), and `onClear` fires last. */
  lemma BlurForcesSelection(s: State, cfg: Config)
    requires WellFormed(s, cfg) && cfg.forceSelection && !cfg.multiple
    ensures var r := OnBlur(s, cfg);
            var m := ForceMatch(s.suggestions, cfg, s.inputText);
            && r.focusedOptionIndex == -1 && r.value == s.value
            && (m.Some? ==> r.inputText == FormatValue(m.value, cfg) && r.pendingHides == s.pendingHides &&
                              |r.events| >= 1 && r.events[|r.events| - 1] == Selected(m.value))
            && (m.None? ==> r.inputText == "" && r.events == s.events + [Changed(Null), Cleared])
  {
    if ForceMatch(s.suggestions, cfg, s.inputText).Some? {
      BlurWithMatch(s, cfg);
    } else {
      BlurWithoutMatch(s, cfg);
    }
  }

  /** The matching half of `BlurForcesSelection`. */
  lemma BlurWithMatch(s: State, cfg: Config)
    requires WellFormed(s, cfg) && cfg.forceSelection && !cfg.multiple
    requires ForceMatch(s.suggestions, cfg, s.inputText).Some?
    ensures var r := OnBlur(s, cfg);
            var m := ForceMatch(s.suggestions, cfg, s.inputText).value;
            && r.focusedOptionIndex == -1 && r.value == s.value
            && r.inputText == FormatValue(m, cfg) && r.pendingHides == s.pendingHides
            && |r.events| >= 1 && r.events[|r.events| - 1] == Selected(m)
  {
    var s1 := s.(focusedOptionIndex := -1);
    var m := ForceMatch(s.suggestions, cfg, s.inputText).value;
    assert OnBlur(s, cfg) == SelectItem(s1, cfg, m, true);
    SelectItemInput(s1, cfg, m, true);
    SelectItemEvents(s1, cfg, m, true);
  }

  /** The clearing half of `BlurForcesSelection`. */
  lemma BlurWithoutMatch(s: State, cfg: Config)
    requires WellFormed(s, cfg) && cfg.forceSelection && !cfg.multiple
    requires ForceMatch(s.suggestions, cfg, s.inputText).None?
    ensures var r := OnBlur(s, cfg);
            && r.focusedOptionIndex == -1 && r.value == s.value
            && r.inputText == "" && r.events == s.events + [Changed(Null), Cleared]
  {
    ForceItemSelectionClears(s.(focusedOptionIndex := -1), cfg);
  }

  /** `forceItemSelection` without a match, in single mode: the input is
      emptied, null is notified and recorded, then `onClear` fires. */
  lemma ForceItemSelectionClears(s: State, cfg: Config)
    requires WellFormed(s, cfg) && !cfg.multiple
    requires ForceMatch(s.suggestions, cfg, s.inputText).None?
    ensures ForceItemSelection(s, cfg) ==
            s.(inputText := "", events := s.events + [Changed(Null), Cleared], selectedItem := Null)
  {
    assert ModelUpdate(s.selectedItem, Null) == Some(Null);
  }

  /** In multiple mode force selection on blur only empties the input. */
  lemma BlurClearsTypedTextInMultiple(s: State, cfg: Config)
    requires WellFormed(s, cfg) && cfg.forceSelection && cfg.multiple
    ensures OnBlur(s, cfg) == s.(focusedOptionIndex := -1, inputText := "")
  {
  }

  /** The input's change with force selection in single mode: a typed text
      that names no valid option empties the input, fires `onClear` and
      then notifies and records null, which is never suppressed. */
  lemma ChangeWithoutMatchClears(s: State, cfg: Config)
    requires WellFormed(s, cfg) && cfg.forceSelection && !cfg.multiple
    requires MatchTypedOption(Visible(s), cfg, s.inputText).None?
    ensures var r := OnChange(s, cfg);
            && r.inputText == "" && r.value == s.value && r.selectedItem == Null
            && r.pendingSearch == s.pendingSearch
            && r.events == s.events + [Cleared, Changed(Null)]
  {
    var s1 := Emit(s, cfg, Cleared).(inputText := "");
    assert ModelUpdate(s1.selectedItem, Null) == Some(Null);
    assert OnChange(s, cfg) == UpdateModel(s1, cfg, Null);
  }

  /** One keystroke in the input raises `onInput` and then `onChange` (both
      bound at lines 956 and 1034). With force selection in single mode, a
      text naming no visible option is emptied on that same keystroke: the
      text is notified (unless recorded), `onClear` fires and null is
      notified and recorded, while the search for the text stays scheduled. */
  lemma KeystrokeWithoutMatchClears(s: State, cfg: Config, text: string)
    requires WellFormed(s, cfg) && cfg.forceSelection && !cfg.multiple && text != ""
    requires MatchTypedOption(Visible(s), cfg, text).None?
    ensures var typed := OnInput(s, cfg, text);
            var r := OnChange(typed, cfg);
            && r.inputText == "" && r.selectedItem == Null
            && (typed.events == s.events + [Changed(Str(text))] ||
                (typed.events == s.events && s.selectedItem == Str(text)))
            && r.events == typed.events + [Cleared, Changed(Null)]
            && r.pendingSearch == (if Utf16Length(text) >= cfg.minLength then Some(text) else None)
  {
    TypedInSingle(s, cfg, text);
    ChangeWithoutMatchClears(OnInput(s, cfg, text), cfg);
  }

  /** What a non-empty keystroke leaves in single mode: the text in the
      input, the options unchanged, the text notified unless recorded, and
      the search scheduled exactly when the text is long enough. */
  lemma TypedInSingle(s: State, cfg: Config, text: string)
    requires WellFormed(s, cfg) && !cfg.multiple && text != ""
    ensures var typed := OnInput(s, cfg, text);
            && typed.inputText == text && Visible(typed) == Visible(s)
            && (typed.events == s.events + [Changed(Str(text))] ||
                (typed.events == s.events && s.selectedItem == Str(text)))
            && typed.pendingSearch == (if Utf16Length(text) >= cfg.minLength then Some(text) else None)
  {
  }

  /** In multiple mode, force selection empties the input on every keystroke
      while more values are allowed and fires `onClear` each time; the
      value is untouched. */
  lemma KeystrokeClearsInMultiple(s: State, cfg: Config, text: string)
    requires WellFormed(s, cfg) && cfg.forceSelection && cfg.multiple && text != ""
    requires IsAllowMoreValues(s.value, cfg.selectionLimit)
    ensures var typed := OnInput(s, cfg, text);
            var r := OnChange(typed, cfg);
            && r.value == s.value && r.inputText == ""
            && r.events == s.events + [Cleared]
  {
    var typed := OnInput(s, cfg, text);
    assert typed.value == s.value && typed.events == s.events;
    ChangeInMultipleClearsInput(typed, cfg);
  }

  /** In multiple mode the change handler, bound only while more values are
      allowed, empties the input and fires `onClear` without touching the value. */
  lemma ChangeInMultipleClearsInput(s: State, cfg: Config)
    requires WellFormed(s, cfg) && cfg.forceSelection && cfg.multiple
    ensures var r := OnChange(s, cfg);
            && (IsAllowMoreValues(s.value, cfg.selectionLimit) ==> r == s.(inputText := "", events := s.events + [Cleared]))
            && (!IsAllowMoreValues(s.value, cfg.selectionLimit) ==> r == s)
  {
  }

  /** A typed text naming a valid option that is not the value selects it. */
  lemma ChangeWithMatchSelects(s: State, cfg: Config)
    requires WellFormed(s, cfg) && cfg.forceSelection && !cfg.multiple
    requires MatchTypedOption(Visible(s), cfg, s.inputText).Some?
    requires s.value != MatchTypedOption(Visible(s), cfg, s.inputText).value
    ensures var r := OnChange(s, cfg);
            var m := MatchTypedOption(Visible(s), cfg, s.inputText).value;
            && r.pendingHides == s.pendingHides + [true]
            && (r.events == s.events + [Changed(m)] || (r.events == s.events && s.selectedItem == m))
  {
    OptionSelectSingle(s, cfg, MatchTypedOption(Visible(s), cfg, s.inputText).value, true);
  }

  /** The first focus searches the current text when asked to, and every
      focus leaves the widget dirty, so a second focus searches nothing. */
  lemma FocusSearchesOnce(s: State, cfg: Config)
    requires WellFormed(s, cfg) && !cfg.disabled && cfg.completeOnFocus && cfg.hasCompleteMethod && !s.dirty
    ensures var r := OnFocus(s, cfg);
            && r.dirty && r.searching
            && r.events == s.events + [Completed(s.inputText)]
            && OnFocus(r, cfg).events == r.events
  {
  }

  /** With the overlay open and auto option focus, focusing the input puts
      the option focus on a valid option (the first selected one, else the
      first one) when there is any. */
  lemma FocusFocusesOption(s: State, cfg: Config)
    requires WellFormed(s, cfg) && !cfg.disabled && s.overlayVisible && s.focusedOptionIndex == -1 && cfg.autoOptionFocus
    ensures var r := OnFocus(s, cfg);
            (r.focusedOptionIndex == -1 <==> forall j :: !ValidAt(Visible(s), cfg, j)) &&
            (r.focusedOptionIndex != -1 ==> ValidAt(Visible(s), cfg, r.focusedOptionIndex))
  {
  }

  /** The host setting an empty value in multiple mode forgets the recorded
      item, so the next selection is notified even if it repeats an old one. */
  lemma EmptyValueResetsRecord(s: State, cfg: Config, v: Val, option: Val)
    requires WellFormed(s, cfg) && cfg.multiple && (v == Null || v == Arr([]))
    ensures SetValue(s, cfg, v).selectedItem == Null
    ensures UpdateModel(SetValue(s, cfg, v), cfg, option).events == s.events + [Changed(option)]
  {
  }

  /** In single mode the input shows the value the host sets. */
  lemma SingleValueShown(s: State, cfg: Config, v: Val)
    requires WellFormed(s, cfg) && !cfg.multiple
    ensures SetValue(s, cfg, v).inputText == FormatValue(v, cfg)
  {
  }
}
