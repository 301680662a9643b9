/** The component itself: its state, its refs and the text of its input
    element are mutable fields, and each event handler is a method that
    updates them statement by statement as the handler does. Each method
    is proved to move the fields exactly as the corresponding function of
    the state machine says. */
module Widget {
  import opened Values
  import opened Options
  import opened Selection
  import Machine

  class AutoComplete {
    const cfg: Config
    var value: Val                    // props.value, as last rendered
    var suggestions: Suggestions      // props.suggestions, as last rendered
    var inputText: string             // inputRef.current.value
    var focusedOptionIndex: int
    var focusedMultipleOptionIndex: int
    var overlayVisible: bool
    var clicked: bool
    var searching: bool
    var dirty: bool
    var selectedItem: Val             // selectedItem.current
    var pendingSearch: Option<string> // searchTimeout.current and the query it will search
    var pendingHides: seq<bool>       // `_hide` calls waiting for the next tick
    var events: seq<Machine.Event>    // the callbacks the host has received

    ghost function Snapshot(): Machine.State
      reads this
    {
      Machine.State(value, suggestions, inputText, focusedOptionIndex, focusedMultipleOptionIndex,
                    overlayVisible, clicked, searching, dirty, selectedItem, pendingSearch, pendingHides, events)
    }

    ghost predicate Valid()
      reads this
    {
      Machine.WellFormed(Snapshot(), cfg)
    }

    constructor (cfg: Config, value: Val, suggestions: Suggestions)
      requires Machine.ValueFits(value, cfg) && Machine.SuggestionsFit(suggestions, cfg)
      ensures Valid() && this.cfg == cfg && Snapshot() == Machine.Init(cfg, value, suggestions)
    {
      this.cfg := cfg;
      this.value := value;
      this.suggestions := suggestions;
      inputText := if cfg.multiple then "" else FormatValue(value, cfg);
      focusedOptionIndex := -1;
      focusedMultipleOptionIndex := -1;
      overlayVisible := false;
      clicked := false;
      searching := false;
      dirty := false;
      selectedItem := Null;
      pendingSearch := None;
      pendingHides := [];
      events := [];
    }

    /** `updateModel` (line 166). */
    method UpdateModel(v: Val)
      requires Valid()
      modifies this
      ensures Valid() && Snapshot() == Machine.UpdateModel(old(Snapshot()), cfg, v)
    {
      if Truthy(selectedItem) && selectedItem == v {
        return;
      }
      events := events + [Machine.Changed(v)];
      selectedItem := if IsNotEmpty(v) then v else Null;
    }

    /** A callback other than `onChange`. */
    method Notify(e: Machine.Event)
      requires Valid() && !e.Changed?
      modifies this
      ensures Valid() && Snapshot() == Machine.Emit(old(Snapshot()), cfg, e)
    {
      events := events + [e];
    }

    /** `show` (line 217). */
    method Show()
      requires Valid()
      modifies this
      ensures Valid() && Snapshot() == Machine.Show(old(Snapshot()), cfg)
    {
      overlayVisible := true;
    }

    /** `hide` (line 221). */
    method Hide(isFocus: bool)
      requires Valid()
      modifies this
      ensures Valid() && Snapshot() == Machine.Hide(old(Snapshot()), cfg, isFocus)
    {
      pendingHides := pendingHides + [isFocus];
    }

    /** The next tick: the oldest deferred `_hide` (lines 222-229) runs. */
    method RunHide()
      requires Valid()
      modifies this
      ensures Valid() && Snapshot() == Machine.RunHide(old(Snapshot()), cfg)
    {
      if pendingHides == [] {
        return;
      }
      var isFocus := pendingHides[0];
      pendingHides := pendingHides[1..];
      dirty := isFocus;
      overlayVisible := false;
      clicked := false;
      focusedOptionIndex := -1;
    }

    /** `onOptionSelect` (line 77). */
    method OnOptionSelect(option: Val, isHide: bool)
      requires Valid()
      modifies this
      ensures Valid() && Snapshot() == Machine.OnOptionSelect(old(Snapshot()), cfg, option, isHide)
    {
      if cfg.multiple {
        inputText := "";
        if !IsSelected(value, option) {
          UpdateModel(Arr(Tokens(value) + [option]));
        }
      } else {
        UpdateModel(option);
      }
      if isHide {
        Hide(true);
      }
    }

    /** `selectItem` (line 138). */
    method SelectItem(option: Val, preventInputFocus: bool)
      requires Valid()
      modifies this
      ensures Valid() && Snapshot() == Machine.SelectItem(old(Snapshot()), cfg, option, preventInputFocus)
    {
      if cfg.multiple {
        SelectItemModel(option);
      } else {
        inputText := FormatValue(option, cfg);
        UpdateModel(option);
      }
      Notify(Machine.Selected(option));
      if !preventInputFocus {
        Hide(false);
      }
    }

    /** The multiple-mode part of `selectItem` (lines 139-147). */
    method SelectItemModel(option: Val)
      requires Valid() && cfg.multiple
      modifies this
      ensures Valid() && Snapshot() == Machine.SelectItemModel(old(Snapshot()), cfg, option)
    {
      inputText := "";
      if !IsSelected(value, option) && IsAllowMoreValues(value, cfg.selectionLimit) {
        var newValue := if Truthy(value) then Arr(value.elems + [option]) else Arr([option]);
        assert newValue == Arr(Tokens(value) + [option]) by {
          assert value.Null? ==> Tokens(value) + [option] == [option];
        }
        UpdateModel(newValue);
      }
    }

    /** `changeFocusedOptionIndex` (line 340). */
    method ChangeFocusedOptionIndex(index: int)
      requires Valid() && index >= -1
      modifies this
      ensures Valid() && Snapshot() == Machine.ChangeFocusedOptionIndex(old(Snapshot()), cfg, index)
    {
      if focusedOptionIndex != index {
        focusedOptionIndex := index;
        if cfg.selectOnFocus || cfg.autoHighlight {
          OnOptionSelect(Machine.OptionAt(VisibleOptions(suggestions), index), false);
        }
      }
    }

    /** `onArrowDownKey` (line 366). */
    method OnArrowDownKey()
      requires Valid()
      modifies this
      ensures Valid() && Snapshot() == Machine.OnArrowDownKey(old(Snapshot()), cfg)
    {
      if !overlayVisible {
        return;
      }
      var opts := VisibleOptions(suggestions);
      var optionIndex :=
        if focusedOptionIndex != -1 then FindNextOptionIndex(opts, cfg, focusedOptionIndex)
        else if clicked then FindFirstOptionIndex(opts, cfg)
        else FindFirstFocusedOptionIndex(opts, cfg, value);
      ChangeFocusedOptionIndex(optionIndex);
    }

    /** Enter, Tab and Alt+Up: select the focused option, if any. */
    method SelectFocused()
      requires Valid()
      modifies this
      ensures Valid() && Snapshot() == Machine.SelectFocused(old(Snapshot()), cfg)
    {
      if focusedOptionIndex != -1 {
        OnOptionSelect(Machine.OptionAt(VisibleOptions(suggestions), focusedOptionIndex), true);
      }
    }

    /** `onArrowUpKey` (line 378). */
    method OnArrowUpKey(alt: bool)
      requires Valid()
      modifies this
      ensures Valid() && Snapshot() == Machine.OnArrowUpKey(old(Snapshot()), cfg, alt)
    {
      if !overlayVisible {
        return;
      }
      if alt {
        SelectFocused();
        Hide(false);
      } else {
        var opts := VisibleOptions(suggestions);
        var optionIndex :=
          if focusedOptionIndex != -1 then FindPrevOptionIndex(opts, cfg, focusedOptionIndex)
          else if clicked then FindLastOptionIndex(opts, cfg)
          else FindLastFocusedOptionIndex(opts, cfg, value);
        ChangeFocusedOptionIndex(optionIndex);
      }
    }

    /** `onEnterKey` (line 450). */
    method OnEnterKey()
      requires Valid()
      modifies this
      ensures Valid() && Snapshot() == Machine.OnEnterKey(old(Snapshot()), cfg)
    {
      if !overlayVisible {
        focusedOptionIndex := -1;
        OnArrowDownKey();
      } else {
        SelectFocused();
        Hide(false);
      }
    }

    /** `onEscapeKey` (line 466). */
    method OnEscapeKey()
      requires Valid()
      modifies this
      ensures Valid() && Snapshot() == Machine.OnEscapeKey(old(Snapshot()), cfg)
    {
      if overlayVisible {
        Hide(true);
      }
    }

    /** `onTabKey` (line 471). */
    method OnTabKey()
      requires Valid()
      modifies this
      ensures Valid() && Snapshot() == Machine.OnTabKey(old(Snapshot()), cfg)
    {
      var wasVisible := overlayVisible;
      SelectFocused();
      if wasVisible {
        Hide(false);
      }
    }

    /** `onArrowLeftKey` (line 399). */
    method OnArrowLeftKey()
      requires Valid()
      modifies this
      ensures Valid() && Snapshot() == Machine.OnArrowLeftKey(old(Snapshot()), cfg)
    {
      focusedOptionIndex := -1;
      if cfg.multiple && inputText == "" && IsNotEmpty(value) {
        focusedMultipleOptionIndex := |Tokens(value)|;
      }
    }

    /** `onArrowRightKey`, `onHomeKey` and `onEndKey` (lines 414, 420, 430). */
    method ClearOptionFocus()
      requires Valid()
      modifies this
      ensures Valid() && Snapshot() == Machine.ClearOptionFocus(old(Snapshot()), cfg)
    {
      focusedOptionIndex := -1;
    }

    /** `onKeyDown` (line 563); in multiple mode it is bound only while more
        values are allowed (line 1036). */
    method OnKeyDown(key: Machine.Key)
      requires Valid()
      modifies this
      ensures Valid() && Snapshot() == Machine.OnKeyDown(old(Snapshot()), cfg, key)
    {
      if cfg.disabled || (cfg.multiple && !IsAllowMoreValues(value, cfg.selectionLimit)) {
        return;
      }
      KeyHandler(key);
      clicked := false;
    }

    /** The handler `onKeyDown` dispatches to for each key (lines 570-626). */
    method KeyHandler(key: Machine.Key)
      requires Valid()
      modifies this
      ensures Valid() && Snapshot() == Machine.KeyHandler(old(Snapshot()), cfg, key)
    {
      match key {
        case ArrowDown => OnArrowDownKey();
        case ArrowUp(alt) => OnArrowUpKey(alt);
        case ArrowLeft => OnArrowLeftKey();
        case ArrowRight => ClearOptionFocus();
        case Home => ClearOptionFocus();
        case End => ClearOptionFocus();
        case PageDown =>
        case PageUp =>
        case Enter => OnEnterKey();
        case Escape => OnEscapeKey();
        case Tab => OnTabKey();
        case Backspace =>
        case OtherKey =>
      }
    }

    /** `onArrowLeftKeyOnMultiple` (line 515). */
    method OnArrowLeftKeyOnMultiple()
      requires Valid()
      modifies this
      ensures Valid() && Snapshot() == Machine.OnArrowLeftKeyOnMultiple(old(Snapshot()), cfg)
    {
      focusedMultipleOptionIndex := if focusedMultipleOptionIndex < 1 then 0 else focusedMultipleOptionIndex - 1;
    }

    /** `onArrowRightKeyOnMultiple` (line 519). */
    method OnArrowRightKeyOnMultiple()
      requires Valid()
      modifies this
      ensures Valid() && Snapshot() == Machine.OnArrowRightKeyOnMultiple(old(Snapshot()), cfg)
    {
      var next := focusedMultipleOptionIndex + 1;
      focusedMultipleOptionIndex := next;
      if next > |Tokens(value)| - 1 {
        focusedMultipleOptionIndex := -1;
      }
    }

    /** `removeItem` (line 309); a value that is not an array makes the
        source throw before any effect. */
    method RemoveItem(index: int)
      requires Valid()
      modifies this
      ensures Valid() && Snapshot() == Machine.RemoveItem(old(Snapshot()), cfg, index)
    {
      if !value.Arr? {
        return;
      }
      var removedValue := Machine.OptionAt(value.elems, index);
      var newValue := RemoveAt(value.elems, index);
      UpdateModel(Arr(newValue));
      Notify(Machine.Unselected(removedValue));
    }

    /** `removeOption` (line 323). */
    method RemoveOption(index: int)
      requires Valid()
      modifies this
      ensures Valid() && Snapshot() == Machine.RemoveOption(old(Snapshot()), cfg, index)
    {
      if !value.Arr? {
        return;
      }
      RemoveItem(index);
      dirty := true;
    }

    /** `onBackspaceKeyOnMultiple` (line 530). */
    method OnBackspaceKeyOnMultiple()
      requires Valid()
      modifies this
      ensures Valid() && Snapshot() == Machine.OnBackspaceKeyOnMultiple(old(Snapshot()), cfg)
    {
      if focusedMultipleOptionIndex != -1 {
        RemoveOption(focusedMultipleOptionIndex);
      }
    }

    /** `onMultipleContainerKeyDown` (line 826). */
    method OnMultipleContainerKeyDown(key: Machine.Key)
      requires Valid()
      modifies this
      ensures Valid() && Snapshot() == Machine.OnMultipleContainerKeyDown(old(Snapshot()), cfg, key)
    {
      if cfg.disabled {
        return;
      }
      match key {
        case ArrowLeft => OnArrowLeftKeyOnMultiple();
        case ArrowRight => OnArrowRightKeyOnMultiple();
        case Backspace => OnBackspaceKeyOnMultiple();
        case _ =>
      }
    }

    /** `onMultipleContainerBlur` (line 815). */
    method OnMultipleContainerBlur()
      requires Valid()
      modifies this
      ensures Valid() && Snapshot() == Machine.OnMultipleContainerBlur(old(Snapshot()), cfg)
    {
      focusedMultipleOptionIndex := -1;
    }

    /** `search` (line 116). */
    method Search(query: Option<string>, source: Machine.Source)
      requires Valid()
      modifies this
      ensures Valid() && Snapshot() == Machine.Search(old(Snapshot()), cfg, query, source)
    {
      if query.None? {
        return;
      }
      if source == Machine.FromInput && Trim(query.value) == "" {
        return;
      }
      searching := true;
      if cfg.hasCompleteMethod {
        Notify(Machine.Completed(query.value));
      }
    }

    /** `onInput` (line 536): the input element already holds `text`. */
    method OnInput(text: string)
      requires Valid()
      modifies this
      ensures Valid() && Snapshot() == Machine.OnInput(old(Snapshot()), cfg, text)
    {
      TypedModel(text);
      if text == "" {
        Hide(false);
        Notify(Machine.Cleared);
      } else if Utf16Length(text) >= cfg.minLength {
        focusedOptionIndex := -1;
        pendingSearch := Some(text);
      } else {
        Hide(false);
      }
    }

    /** The first part of `onInput` (lines 537-544). */
    method TypedModel(text: string)
      requires Valid()
      modifies this
      ensures Valid() && Snapshot() == Machine.TypedModel(old(Snapshot()), cfg, text)
    {
      pendingSearch := None;
      inputText := text;
      if !cfg.multiple {
        UpdateModel(Str(text));
      }
    }

    /** The debounce timer set at line 554 firing. */
    method FireSearchTimer()
      requires Valid()
      modifies this
      ensures Valid() && Snapshot() == Machine.FireSearchTimer(old(Snapshot()), cfg)
    {
      match pendingSearch {
        case None =>
        case Some(q) =>
          pendingSearch := None;
          Search(Some(q), Machine.FromInput);
      }
    }

    /** `onDropdownClick` (line 293). */
    method OnDropdownClick()
      requires Valid()
      modifies this
      ensures Valid() && Snapshot() == Machine.OnDropdownClick(old(Snapshot()), cfg)
    {
      match cfg.dropdownMode {
        case Blank => Search(Some(""), Machine.FromDropdown);
        case Current => Search(Some(inputText), Machine.FromDropdown);
        case Other =>
      }
      Notify(Machine.DropdownClicked(inputText));
    }

    /** `onChange` of the input element (line 93); in multiple mode it is
        bound only while more values are allowed (line 1034). */
    method OnChange()
      requires Valid()
      modifies this
      ensures Valid() && Snapshot() == Machine.OnChange(old(Snapshot()), cfg)
    {
      if !cfg.forceSelection || (cfg.multiple && !IsAllowMoreValues(value, cfg.selectionLimit)) {
        return;
      }
      ForcedChange();
    }

    /** The body of `onChange` under `forceSelection` (lines 95-112). */
    method ForcedChange()
      requires Valid()
      modifies this
      ensures Valid() && Snapshot() == Machine.ForcedChange(old(Snapshot()), cfg)
    {
      var valid := false;
      if !cfg.multiple {
        var matchedValue := MatchTypedOption(VisibleOptions(suggestions), cfg, inputText);
        if matchedValue.Some? {
          valid := true;
          if !IsSelected(value, matchedValue.value) {
            OnOptionSelect(matchedValue.value, true);
          }
        }
      }
      if !valid {
        inputText := "";
        Notify(Machine.Cleared);
        if !cfg.multiple {
          UpdateModel(Null);
        }
      }
    }

    /** `forceItemSelection` (line 770). */
    method ForceItemSelection()
      requires Valid()
      modifies this
      ensures Valid() && Snapshot() == Machine.ForceItemSelection(old(Snapshot()), cfg)
    {
      if cfg.multiple {
        inputText := "";
        return;
      }
      var item := ForceMatch(suggestions, cfg, inputText);
      if item.Some? {
        SelectItem(item.value, true);
      } else {
        inputText := "";
        UpdateModel(Null);
        Notify(Machine.Cleared);
      }
    }

    /** `onBlur` (line 794). */
    method OnBlur()
      requires Valid()
      modifies this
      ensures Valid() && Snapshot() == Machine.OnBlur(old(Snapshot()), cfg)
    {
      focusedOptionIndex := -1;
      if cfg.forceSelection {
        ForceItemSelection();
      }
    }

    /** `onFocus` (line 747). */
    method OnFocus()
      requires Valid()
      modifies this
      ensures Valid() && Snapshot() == Machine.OnFocus(old(Snapshot()), cfg)
    {
      if cfg.disabled {
        return;
      }
      var wasVisible, wasFocused, opts, selection := overlayVisible, focusedOptionIndex, VisibleOptions(suggestions), value;
      if !dirty && cfg.completeOnFocus {
        Search(Some(inputText), Machine.FromFocus);
      }
      dirty := true;
      if wasVisible {
        focusedOptionIndex :=
          if wasFocused != -1 then wasFocused
          else if cfg.autoOptionFocus then FindFirstFocusedOptionIndex(opts, cfg, selection)
          else -1;
      }
    }

    /** `onContainerClick` (line 281). */
    method OnContainerClick()
      requires Valid()
      modifies this
      ensures Valid() && Snapshot() == Machine.OnContainerClick(old(Snapshot()), cfg)
    {
      clicked := true;
    }

    /** A re-render with a new `value` (lines 898-906 and 1007). */
    method SetValue(v: Val)
      requires Valid() && Machine.ValueFits(v, cfg)
      modifies this
      ensures Valid() && Snapshot() == Machine.SetValue(old(Snapshot()), cfg, v)
    {
      value := v;
      if cfg.multiple {
        if !IsNotEmpty(v) {
          selectedItem := Null;
        }
      } else {
        inputText := FormatValue(v, cfg);
      }
    }

    /** A re-render with new `suggestions` (lines 891-896). */
    method SetSuggestions(sug: Suggestions)
      requires Valid() && Machine.SuggestionsFit(sug, cfg)
      modifies this
      ensures Valid() && Snapshot() == Machine.SetSuggestions(old(Snapshot()), cfg, sug)
    {
      var wasSearching := searching;
      suggestions := sug;
      if wasSearching {
        if Machine.SuggestionsNotEmpty(sug) || cfg.showEmptyMessage {
          Show();
        } else {
          Hide(false);
        }
        searching := false;
      }
    }

    /** Whatever happens next to the component: a user event, a timer or a re-render. */
    method Apply(a: Machine.Action)
      requires Valid() && Machine.ActionFits(a, cfg)
      modifies this
      ensures Valid() && Snapshot() == Machine.Step(old(Snapshot()), cfg, a)
    {
      match a {
        case KeyDown(key) => OnKeyDown(key);
        case TokenKeyDown(key) => OnMultipleContainerKeyDown(key);
        case TokensBlur => OnMultipleContainerBlur();
        case Typed(text) => OnInput(text);
        case InputChange => OnChange();
        case Blur => OnBlur();
        case Focus => OnFocus();
        case ContainerClick => OnContainerClick();
        case DropdownClick => OnDropdownClick();
        case ItemClick(option) => SelectItem(option, false);
        case TokenIconClick(index) => RemoveItem(index);
        case SearchTimerFired => FireSearchTimer();
        case HideTimerFired => RunHide();
        case HostValue(v) => SetValue(v);
        case HostSuggestions(sug) => SetSuggestions(sug);
      }
    }
  }
}
