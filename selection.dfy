/** The value computations behind the selection model: the selection
    limit, appending and removing tokens, the duplicate-notification guard
    of `updateModel`, and the matching that force selection performs. */
module Selection {
  import opened Values
  import opened Options

  /** `isAllowMoreValues` (line 871): no value, no limit, or a value shorter
      than the limit (`undefined < limit` is false for a value without a length). */
  predicate IsAllowMoreValues(value: Val, limit: nat) {
    !Truthy(value) || limit == 0 ||
    match value
    case Arr(e) => |e| < limit
    case Str(s) => |s| < limit
    case _ => false
  }

  /** No value occurs twice among `tokens`. */
  predicate Distinct(tokens: seq<Val>) {
    forall i, j :: 0 <= i < j < |tokens| ==> tokens[i] != tokens[j]
  }

  /** The new value `selectItem` (lines 139-147) hands to `updateModel` in
      multiple mode, or `None` when it leaves the value alone. With
      `isSelected` as written the guard compares the whole value with the
      option, so a token that is already there is appended again. */
  function SelectItemMultiple(value: Val, option: Val, limit: nat): (r: Option<Val>)
    requires value.Null? || value.Arr?
    ensures r.Some? <==> value != option && (limit == 0 || |Tokens(value)| < limit)
    ensures r.Some? ==> r.value == Arr(Tokens(value) + [option])
    ensures r.Some? && limit > 0 ==> |r.value.elems| <= limit
  {
    if !IsSelected(value, option) && IsAllowMoreValues(value, limit) then
      Some(Arr(Tokens(value) + [option]))
    else
      None
  }

  /** `selectItem` in multiple mode with the intended `isSelected`: an
      option that is already a token leaves the value alone. */
  function SelectItemMultipleIntended(value: Val, option: Val, limit: nat): (r: Option<Val>)
    requires value.Null? || value.Arr?
    ensures r.Some? <==> option !in Tokens(value) && (limit == 0 || |Tokens(value)| < limit)
    ensures r.Some? ==> r.value == Arr(Tokens(value) + [option])
    ensures r.Some? && limit > 0 ==> |r.value.elems| <= limit
  {
    if !IsSelectedIntended(value, option, true) && IsAllowMoreValues(value, limit) then
      Some(Arr(Tokens(value) + [option]))
    else
      None
  }

  /** Appending an option that is not among duplicate-free tokens keeps them
      duplicate-free. */
  lemma AppendKeepsDistinct(tokens: seq<Val>, option: Val)
    requires Distinct(tokens) && option !in tokens
    ensures Distinct(tokens + [option])
  {
    var t := tokens + [option];
    forall i, j | 0 <= i < j < |t|
      ensures t[i] != t[j]
    {
      if j == |tokens| {
        assert t[i] == tokens[i] && t[j] == option;
      } else {
        assert t[i] == tokens[i] && t[j] == tokens[j];
      }
    }
  }

  /** The intended selection never introduces a duplicate token. */
  lemma SelectItemIntendedKeepsDistinct(value: Val, option: Val, limit: nat)
    requires (value.Null? || value.Arr?) && Distinct(Tokens(value))
    ensures SelectItemMultipleIntended(value, option, limit).Some? ==>
              Distinct(SelectItemMultipleIntended(value, option, limit).value.elems)
  {
    if option !in Tokens(value) {
      AppendKeepsDistinct(Tokens(value), option);
    }
  }

  /** As written, choosing an option that is already a token appends it a
      second time, so the tokens are no longer duplicate-free; the intended
      selection leaves the value alone. */
  lemma DuplicateTokenAsWritten(elems: seq<Val>, option: Val, limit: nat)
    requires option in elems && (limit == 0 || |elems| < limit)
    ensures SelectItemMultiple(Arr(elems), option, limit) == Some(Arr(elems + [option]))
    ensures !Distinct(elems + [option])
    ensures SelectItemMultipleIntended(Arr(elems), option, limit) == None
  {
    AsWrittenMissesSelectedTokens(elems, option);
    var k :| 0 <= k < |elems| && elems[k] == option;
    assert (elems + [option])[k] == (elems + [option])[|elems|];
  }

  /** The new value `onOptionSelect` (lines 80-85) hands to `updateModel`
      in multiple mode: appended unless the whole value deep-equals the
      option (`isSelected` as written), with no limit check. */
  function OptionSelectMultiple(value: Val, option: Val): (r: Option<Val>)
    ensures r.Some? <==> value != option
    ensures r.Some? ==> r.value == Arr(Tokens(value) + [option])
  {
    if !IsSelected(value, option) then Some(Arr(Tokens(value) + [option])) else None
  }

  /** `onOptionSelect` in multiple mode with the intended `isSelected`:
      appended exactly when the option is not yet a token. */
  function OptionSelectMultipleIntended(value: Val, option: Val): (r: Option<Val>)
    ensures r.Some? <==> option !in Tokens(value)
    ensures r.Some? ==> r.value == Arr(Tokens(value) + [option])
  {
    if !IsSelectedIntended(value, option, true) then Some(Arr(Tokens(value) + [option])) else None
  }

  /** The intended `onOptionSelect` never introduces a duplicate token. */
  lemma OptionSelectIntendedKeepsDistinct(value: Val, option: Val)
    requires Distinct(Tokens(value))
    ensures OptionSelectMultipleIntended(value, option).Some? ==>
              Distinct(OptionSelectMultipleIntended(value, option).value.elems)
  {
    if option !in Tokens(value) {
      AppendKeepsDistinct(Tokens(value), option);
    }
  }

  /** As written, `onOptionSelect` on an option that is already a token
      appends it again; the intended one leaves the value alone. */
  lemma DuplicateOptionAsWritten(elems: seq<Val>, option: Val)
    requires option in elems
    ensures OptionSelectMultiple(Arr(elems), option) == Some(Arr(elems + [option]))
    ensures !Distinct(elems + [option])
    ensures OptionSelectMultipleIntended(Arr(elems), option) == None
  {
    AsWrittenMissesSelectedTokens(elems, option);
    var k :| 0 <= k < |elems| && elems[k] == option;
    assert (elems + [option])[k] == (elems + [option])[|elems|];
  }

  /** `filter((_, i) => i !== k)` (lines 311 and 325). */
  function RemoveAt<T>(s: seq<T>, k: int): (r: seq<T>)
    ensures 0 <= k < |s| ==> r == s[..k] + s[k + 1..]
    ensures !(0 <= k < |s|) ==> r == s
  {
    if s == [] then []
    else
      var n := |s| - 1;
      var front := RemoveAt(s[..n], k);
      assert s == s[..n] + [s[n]];
      assert 0 <= k < n ==> s[..n][k + 1..] + [s[n]] == s[k + 1..];
      front + (if n == k then [] else [s[n]])
  }

  lemma SpliceMultiset<T>(s: seq<T>, k: int)
    requires 0 <= k < |s|
    ensures multiset(s[..k] + s[k + 1..]) + multiset{s[k]} == multiset(s)
  {
    assert s == s[..k] + [s[k]] + s[k + 1..];
  }

  /** Removal takes out exactly the element at `k`: the rest keep their
      multiplicities (and, by the contract above, their order). */
  lemma RemoveAtMultiset<T>(s: seq<T>, k: int)
    requires 0 <= k < |s|
    ensures |RemoveAt(s, k)| == |s| - 1
    ensures multiset(RemoveAt(s, k)) + multiset{s[k]} == multiset(s)
  {
    SpliceMultiset(s, k);
  }

  /** The guard and the record of `updateModel` (lines 166-191): `None` when
      the notification is dropped, otherwise the new recorded value. */
  function ModelUpdate(recorded: Val, v: Val): (r: Option<Val>)
    ensures r.None? <==> Truthy(recorded) && recorded == v
    ensures r.Some? && IsNotEmpty(v) ==> r.value == v
    ensures r.Some? && !IsNotEmpty(v) ==> r.value == Null
  {
    if Truthy(recorded) && recorded == v then None
    else Some(if IsNotEmpty(v) then v else Null)
  }

  /** The record after one `updateModel` call. */
  function RecordAfter(recorded: Val, v: Val): Val {
    match ModelUpdate(recorded, v)
    case None => recorded
    case Some(r) => r
  }

  /** A second `updateModel` with the same value is dropped exactly when the
      value is non-empty: two identical non-empty updates notify at most once. */
  lemma RepeatedUpdateNotifiesOnce(recorded: Val, v: Val)
    requires recorded == Null || IsNotEmpty(recorded)
    ensures ModelUpdate(RecordAfter(recorded, v), v).None? <==> IsNotEmpty(v)
  {
    NotEmptyIsTruthy(v);
  }

  /** A recorded non-empty value drops every update that repeats it, and only those. */
  lemma RecordSuppressesExactlyItself(recorded: Val, v: Val)
    requires IsNotEmpty(recorded)
    ensures ModelUpdate(recorded, v).None? <==> v == recorded
  {
    NotEmptyIsTruthy(recorded);
  }

  /** The text `forceItemSelection` compares (line 779): the configured field
      of an object option, or a string option itself. */
  function FieldText(it: Val, cfg: Config): Option<string> {
    if cfg.hasField then (if it.Obj? then Some(it.title) else None)
    else (if it.Str? then Some(it.s) else None)
  }

  /** The test of line 781: a non-empty text equal to the input once both are trimmed. */
  predicate ForceMatches(it: Val, cfg: Config, input: string) {
    FieldText(it, cfg).Some? && FieldText(it, cfg).value != "" && Trim(input) == Trim(FieldText(it, cfg).value)
  }

  /** The suggestion `forceItemSelection` (lines 777-782) picks for the typed
      text: the first raw suggestion that matches. Raw group objects are
      not searched: grouped suggestions match nothing here. */
  function ForceMatch(sug: Suggestions, cfg: Config, input: string): (r: Option<Val>)
    ensures sug.Grouped? ==> r.None?
    ensures sug.Flat? && r.Some? ==>
              (exists k :: 0 <= k < |sug.items| && sug.items[k] == r.value && ForceMatches(r.value, cfg, input) &&
                 forall j :: 0 <= j < k ==> !ForceMatches(sug.items[j], cfg, input))
    ensures sug.Flat? && r.None? ==> forall j :: 0 <= j < |sug.items| ==> !ForceMatches(sug.items[j], cfg, input)
  {
    match sug
    case Grouped(_) => None
    case Flat(items) =>
      var k := FindIndex(items, it => ForceMatches(it, cfg, input));
      if k >= 0 then Some(items[k]) else None
  }

  /** `getOptionLabel` (line 654): the configured field of an object option,
      or a string option itself. */
  function OptionLabel(o: Val, cfg: Config): Option<string> {
    if cfg.hasField || cfg.hasOptionLabel then (if o.Obj? then Some(o.title) else None)
    else (if o.Str? then Some(o.s) else None)
  }

  /** `isOptionMatched` (line 658): a valid option whose label equals the
      text, letter case aside. */
  predicate OptionMatched(o: Val, cfg: Config, text: string) {
    IsValidOption(o, cfg) && OptionLabel(o, cfg).Some? && Lower(OptionLabel(o, cfg).value) == Lower(text)
  }

  /** The option `onChange` (line 99) finds for the typed text. */
  function MatchTypedOption(opts: seq<Val>, cfg: Config, text: string): (r: Option<Val>)
    ensures r.Some? ==>
              (exists k :: 0 <= k < |opts| && opts[k] == r.value && OptionMatched(r.value, cfg, text) &&
                 forall j :: 0 <= j < k ==> !OptionMatched(opts[j], cfg, text))
    ensures r.None? ==> forall j :: 0 <= j < |opts| ==> !OptionMatched(opts[j], cfg, text)
  {
    var k := FindIndex(opts, o => OptionMatched(o, cfg, text));
    if k >= 0 then Some(opts[k]) else None
  }
}
