/** A single-mode session, step by step: the user types "a", the debounced
    search completes "a", the host answers with two suggestions, Down
    focuses the first and Enter picks it. Each step is stated once on the
    state machine, and the component is then driven through the same steps. */
module Session {
  import opened Values
  import opened Machine
  import Widget

  function SessionConfig(): Config {
    Config(multiple := false, grouped := false, minLength := 1, selectionLimit := 0,
           forceSelection := false, hasField := false, hasOptionLabel := false,
           hasOptionDisabled := false, selectOnFocus := false, autoHighlight := false,
           autoOptionFocus := false, completeOnFocus := false, showEmptyMessage := false,
           disabled := false, hasCompleteMethod := true, dropdownMode := Blank)
  }

  function Answer(): seq<Val> {
    [Str("apple"), Str("avocado")]
  }

  /** The state after typing "a": the text is notified and a search is scheduled. */
  function AfterTyping(): State {
    State(Null, Flat([]), "a", -1, -1, false, false, false, false, Str("a"), Some("a"), [], [Changed(Str("a"))])
  }

  /** The state once the host has echoed the value and the timer has fired. */
  function AfterSearch(): State {
    State(Str("a"), Flat([]), "a", -1, -1, false, false, true, false, Str("a"), None, [],
          [Changed(Str("a")), Completed("a")])
  }

  /** The state once the host has delivered the suggestions. */
  function AfterAnswer(): State {
    AfterSearch().(suggestions := Flat(Answer()), overlayVisible := true, searching := false)
  }

  /** The state after Enter: "apple" is notified and two hides are queued. */
  function AfterEnter(): State {
    AfterAnswer().(focusedOptionIndex := 0, selectedItem := Str("apple"), pendingHides := [true, false],
                   events := AfterAnswer().events + [Changed(Str("apple"))])
  }

  lemma TypingStep()
    ensures OnInput(Init(SessionConfig(), Null, Flat([])), SessionConfig(), "a") == AfterTyping()
  {
  }

  lemma SearchStep()
    ensures FireSearchTimer(SetValue(AfterTyping(), SessionConfig(), Str("a")), SessionConfig()) == AfterSearch()
  {
  }

  lemma AnswerStep()
    ensures SetSuggestions(AfterSearch(), SessionConfig(), Flat(Answer())) == AfterAnswer()
  {
  }

  lemma DownStep()
    ensures OnKeyDown(AfterAnswer(), SessionConfig(), ArrowDown) == AfterAnswer().(focusedOptionIndex := 0)
  {
  }

  lemma EnterStep()
    ensures OnKeyDown(AfterAnswer().(focusedOptionIndex := 0), SessionConfig(), Enter) == AfterEnter()
  {
  }

  lemma HideSteps()
    ensures RunHide(RunHide(AfterEnter(), SessionConfig()), SessionConfig()) ==
            AfterEnter().(focusedOptionIndex := -1, overlayVisible := false, pendingHides := [], dirty := false)
  {
  }

  /** The component driven through the session: the host sees "a" typed,
      "a" completed and "apple" chosen; Down focuses the first suggestion
      and the queued hides close the overlay. */
  method Drive() returns (events: seq<Event>, focusedAfterDown: int, openAtEnd: bool)
    ensures events == [Changed(Str("a")), Completed("a"), Changed(Str("apple"))]
    ensures focusedAfterDown == 0
    ensures !openAtEnd
  {
    var w := new Widget.AutoComplete(SessionConfig(), Null, Flat([]));
    w.OnInput("a");
    TypingStep();
    w.SetValue(Str("a"));
    w.FireSearchTimer();
    SearchStep();
    w.SetSuggestions(Flat(Answer()));
    AnswerStep();
    w.OnKeyDown(ArrowDown);
    DownStep();
    focusedAfterDown := w.focusedOptionIndex;
    w.OnKeyDown(Enter);
    EnterStep();
    w.RunHide();
    w.RunHide();
    HideSteps();
    events := w.events;
    openAtEnd := w.overlayVisible;
  }
}
