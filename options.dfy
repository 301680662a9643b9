/** The candidate list the overlay shows and the searches over it that
    keyboard navigation uses (AutoComplete.js, lines 662-745 and 851-853). */
module Options {
  import opened Values

  /** `isOptionDisabled` (line 690): the disabled field, read only when
      `optionDisabled` is configured; a string has no such field. */
  predicate IsOptionDisabled(o: Val, cfg: Config) {
    cfg.hasOptionDisabled && o.Obj? && o.disabled
  }

  /** `isOptionGroup` (line 694): a header record, when grouping is configured. */
  predicate IsOptionGroup(o: Val, cfg: Config) {
    cfg.grouped && o.GroupHeader?
  }

  /** `isValidOption` (line 698): non-empty, not disabled and not a group header. */
  predicate IsValidOption(o: Val, cfg: Config) {
    IsNotEmpty(o) && !(IsOptionDisabled(o, cfg) || IsOptionGroup(o, cfg))
  }

  /** Position `j` of `opts` holds a valid option. */
  predicate ValidAt(opts: seq<Val>, cfg: Config, j: int) {
    0 <= j < |opts| && IsValidOption(opts[j], cfg)
  }

  /** `Array.prototype.findIndex`: the first position whose element satisfies
      `p`, or -1 when there is none. */
  function FindIndex<T>(s: seq<T>, p: T -> bool): (r: int)
    ensures -1 <= r < |s|
    ensures r >= 0 ==> p(s[r])
    ensures forall j :: 0 <= j < r ==> !p(s[j])
    ensures r == -1 <==> forall j :: 0 <= j < |s| ==> !p(s[j])
  {
    if s == [] then -1
    else if p(s[0]) then 0
    else
      var k := FindIndex(s[1..], p);
      assert forall j :: 1 <= j < |s| ==> s[j] == s[1..][j - 1];
      if k == -1 then -1 else k + 1
  }

  /** `ObjectUtils.findLastIndex`: the last position whose element satisfies
      `p`, or -1 when there is none. */
  function FindLastIndex<T>(s: seq<T>, p: T -> bool): (r: int)
    ensures -1 <= r < |s|
    ensures r >= 0 ==> p(s[r])
    ensures forall j :: r < j < |s| ==> !p(s[j])
    ensures r == -1 <==> forall j :: 0 <= j < |s| ==> !p(s[j])
  {
    if s == [] then -1
    else if p(s[|s| - 1]) then |s| - 1
    else FindLastIndex(s[..|s| - 1], p)
  }

  /** `flatOptions` (line 662): each group becomes its header record followed
      by its children, in group order. */
  function FlatOptions(groups: seq<Group>): seq<Val>
    decreases |groups|
  {
    if groups == [] then []
    else
      var n := |groups| - 1;
      FlatOptions(groups[..n]) + [GroupHeader(groups[n].name, n)] + groups[n].children
  }

  /** Where the header of group `i` sits in the flat list. */
  function GroupOffset(groups: seq<Group>, i: nat): nat
    requires i <= |groups|
  {
    |FlatOptions(groups[..i])|
  }

  lemma {:induction false} FlatOptionsPrefix(groups: seq<Group>, i: nat)
    requires i <= |groups|
    ensures FlatOptions(groups[..i]) <= FlatOptions(groups)
    decreases |groups|
  {
    if i == |groups| {
      assert groups[..i] == groups;
    } else {
      var n := |groups| - 1;
      assert groups[..n][..i] == groups[..i];
      FlatOptionsPrefix(groups[..n], i);
    }
  }

  /** Group `i` occupies the slice from its offset: its header, then its
      children, and the next group starts right after them. */
  lemma FlatOptionsLayout(groups: seq<Group>, i: nat)
    requires i < |groups|
    ensures GroupOffset(groups, i + 1) == GroupOffset(groups, i) + 1 + |groups[i].children|
    ensures GroupOffset(groups, i + 1) <= |FlatOptions(groups)|
    ensures FlatOptions(groups)[GroupOffset(groups, i)] == GroupHeader(groups[i].name, i)
    ensures forall j :: 0 <= j < |groups[i].children| ==>
              FlatOptions(groups)[GroupOffset(groups, i) + 1 + j] == groups[i].children[j]
  {
    var pre := groups[..i + 1];
    assert pre[..i] == groups[..i];
    var before := FlatOptions(groups[..i]);
    var ch := groups[i].children;
    var flat := FlatOptions(pre);
    assert flat == before + [GroupHeader(groups[i].name, i)] + ch;
    FlatOptionsPrefix(groups, i + 1);
    var all := FlatOptions(groups);
    assert flat <= all;
    assert all[|before|] == flat[|before|] == GroupHeader(groups[i].name, i);
    assert GroupOffset(groups, i) == |before|;
    forall j | 0 <= j < |groups[i].children|
      ensures FlatOptions(groups)[GroupOffset(groups, i) + 1 + j] == groups[i].children[j]
    {
      assert all[|before| + 1 + j] == flat[|before| + 1 + j];
    }
  }

  /** Entry `k` of the flat list is the header of group `i` or one of its children. */
  predicate EntryOfGroup(groups: seq<Group>, k: nat, i: nat)
    requires k < |FlatOptions(groups)|
  {
    && i < |groups|
    && GroupOffset(groups, i) <= k <= GroupOffset(groups, i) + |groups[i].children|
    && (k == GroupOffset(groups, i) ==> FlatOptions(groups)[k] == GroupHeader(groups[i].name, i))
    && (k > GroupOffset(groups, i) ==> FlatOptions(groups)[k] == groups[i].children[k - GroupOffset(groups, i) - 1])
  }

  /** Conversely, every entry of the flat list is a group's header or one of
      its children. */
  lemma FlatOptionsEntry(groups: seq<Group>, k: nat)
    requires k < |FlatOptions(groups)|
    ensures exists i :: EntryOfGroup(groups, k, i)
  {
    assert groups[..0] == [];
    var i := FlatOptionsEntryFrom(groups, k, 0);
  }

  lemma OffsetOfAllGroups(groups: seq<Group>)
    ensures GroupOffset(groups, |groups|) == |FlatOptions(groups)|
  {
    assert groups[..|groups|] == groups;
  }

  lemma {:induction false} FlatOptionsEntryFrom(groups: seq<Group>, k: nat, i: nat) returns (g: nat)
    requires i < |groups| && GroupOffset(groups, i) <= k < |FlatOptions(groups)|
    ensures EntryOfGroup(groups, k, g)
    decreases |groups| - i
  {
    FlatOptionsLayout(groups, i);
    if k <= GroupOffset(groups, i) + |groups[i].children| {
      g := i;
      if k > GroupOffset(groups, i) {
        var j := k - GroupOffset(groups, i) - 1;
        assert FlatOptions(groups)[GroupOffset(groups, i) + 1 + j] == groups[i].children[j];
      }
    } else {
      OffsetOfAllGroups(groups);
      g := FlatOptionsEntryFrom(groups, k, i + 1);
    }
  }

  /** `visibleOptions` (line 686): the flattened groups when grouping is
      configured, the suggestions themselves otherwise. */
  function VisibleOptions(sug: Suggestions): (r: seq<Val>)
    ensures sug.Flat? ==> r == sug.items
    ensures sug.Grouped? ==> r == FlatOptions(sug.groups) && |r| >= |sug.groups|
  {
    match sug
    case Flat(items) => items
    case Grouped(groups) =>
      if groups == [] then [] else
      FlatOptionsLayout(groups, |groups| - 1);
      assert GroupOffset(groups, |groups| - 1) >= |groups| - 1 by {
        OffsetAtLeastIndex(groups, |groups| - 1);
      }
      FlatOptions(groups)
  }

  lemma {:induction false} OffsetAtLeastIndex(groups: seq<Group>, i: nat)
    requires i <= |groups|
    ensures GroupOffset(groups, i) >= i
  {
    if i > 0 {
      OffsetAtLeastIndex(groups, i - 1);
      FlatOptionsLayout(groups, i - 1);
    }
  }

  /** In grouped mode no header position is one navigation can land on. */
  lemma HeadersAreSkipped(groups: seq<Group>, cfg: Config, i: nat)
    requires cfg.grouped && i < |groups|
    ensures !ValidAt(FlatOptions(groups), cfg, GroupOffset(groups, i))
  {
    FlatOptionsLayout(groups, i);
  }

  /** `isSelected` (line 851): `ObjectUtils.equals(props.value, option)`, a
      deep comparison of the whole value with the option, in both modes. */
  predicate IsSelected(value: Val, option: Val) {
    value == option
  }

  /** What `isSelected` evidently intends: in multiple mode, membership of
      the option among the tokens; otherwise equality with the value. */
  predicate IsSelectedIntended(value: Val, option: Val, multiple: bool) {
    if multiple then option in Tokens(value) else value == option
  }

  /** As written, no option that is an element of a multi-selection value
      counts as selected: an array is never deep-equal to one of its elements. */
  lemma AsWrittenMissesSelectedTokens(elems: seq<Val>, option: Val)
    requires option in elems
    ensures IsSelectedIntended(Arr(elems), option, true)
    ensures !IsSelected(Arr(elems), option)
  {
    assert option < Arr(elems);
  }

  /** Position `j` holds a valid option that is selected (`isValidSelectedOption`, line 702). */
  predicate ValidSelectedAt(opts: seq<Val>, cfg: Config, value: Val, j: int) {
    ValidAt(opts, cfg, j) && IsSelected(value, opts[j])
  }

  /** `findSelectedOptionIndex` (line 706): the first valid selected option. */
  function FindSelectedOptionIndex(opts: seq<Val>, cfg: Config, value: Val): (r: int)
    ensures r == -1 || ValidSelectedAt(opts, cfg, value, r)
    ensures forall j :: 0 <= j < r ==> !ValidSelectedAt(opts, cfg, value, j)
    ensures r == -1 <==> forall j :: !ValidSelectedAt(opts, cfg, value, j)
  {
    if IsNotEmpty(value) then
      FindIndex(opts, o => IsValidOption(o, cfg) && IsSelected(value, o))
    else
      assert forall j :: !ValidSelectedAt(opts, cfg, value, j);
      -1
  }

  /** Position `j` holds a valid option that is selected in the intended sense. */
  predicate ValidSelectedIntendedAt(opts: seq<Val>, cfg: Config, value: Val, j: int) {
    ValidAt(opts, cfg, j) && IsSelectedIntended(value, opts[j], cfg.multiple)
  }

  /** `findSelectedOptionIndex` with the intended `isSelected`: in multiple
      mode, the first valid option that is one of the tokens. */
  function FindSelectedOptionIndexIntended(opts: seq<Val>, cfg: Config, value: Val): (r: int)
    ensures r == -1 || ValidSelectedIntendedAt(opts, cfg, value, r)
    ensures forall j :: 0 <= j < r ==> !ValidSelectedIntendedAt(opts, cfg, value, j)
    ensures r == -1 <==> forall j :: !ValidSelectedIntendedAt(opts, cfg, value, j)
  {
    if IsNotEmpty(value) then
      FindIndex(opts, o => IsValidOption(o, cfg) && IsSelectedIntended(value, o, cfg.multiple))
    else
      assert forall j :: !ValidSelectedIntendedAt(opts, cfg, value, j);
      -1
  }

  /** As written, in multiple mode a list of string or object options never
      has a selected option, whatever the tokens are. */
  lemma SelectedIndexIgnoresTokens(opts: seq<Val>, cfg: Config, elems: seq<Val>)
    requires forall j :: 0 <= j < |opts| ==> !opts[j].Arr?
    ensures FindSelectedOptionIndex(opts, cfg, Arr(elems)) == -1
  {
  }

  /** `findFirstOptionIndex` (line 710). */
  function FindFirstOptionIndex(opts: seq<Val>, cfg: Config): (r: int)
    ensures r == -1 || ValidAt(opts, cfg, r)
    ensures forall j :: j < r ==> !ValidAt(opts, cfg, j)
    ensures r == -1 <==> forall j :: !ValidAt(opts, cfg, j)
  {
    FindIndex(opts, o => IsValidOption(o, cfg))
  }

  /** `findLastOptionIndex` (line 725). */
  function FindLastOptionIndex(opts: seq<Val>, cfg: Config): (r: int)
    ensures r == -1 || ValidAt(opts, cfg, r)
    ensures forall j :: r < j ==> !ValidAt(opts, cfg, j)
    ensures r == -1 <==> forall j :: !ValidAt(opts, cfg, j)
  {
    FindLastIndex(opts, o => IsValidOption(o, cfg))
  }

  /** `findNextOptionIndex` (line 714): the nearest valid option after
      `index`, or `index` itself when there is none (no wrap-around). */
  function FindNextOptionIndex(opts: seq<Val>, cfg: Config, index: int): (r: int)
    requires index >= 0
    ensures r == index || (index < r && ValidAt(opts, cfg, r))
    ensures forall j :: index < j < r ==> !ValidAt(opts, cfg, j)
    ensures r == index <==> forall j :: index < j ==> !ValidAt(opts, cfg, j)
  {
    var m := if index < |opts| - 1 then FindIndex(opts[index + 1..], o => IsValidOption(o, cfg)) else -1;
    assert index < |opts| - 1 ==> forall j :: index < j < |opts| ==> opts[j] == opts[index + 1..][j - index - 1];
    if m > -1 then m + index + 1 else index
  }

  /** `findPrevOptionIndex` (line 735): the nearest valid option before
      `index`, or `index` itself when there is none. */
  function FindPrevOptionIndex(opts: seq<Val>, cfg: Config, index: int): (r: int)
    requires index >= 0
    ensures r == index || (r < index && ValidAt(opts, cfg, r))
    ensures forall j :: r < j < index ==> !ValidAt(opts, cfg, j)
    ensures r == index <==> forall j :: j < index ==> !ValidAt(opts, cfg, j)
  {
    // slice(0, index) stops at the end of the list
    var end := if index < |opts| then index else |opts|;
    var m := if index > 0 then FindLastIndex(opts[..end], o => IsValidOption(o, cfg)) else -1;
    assert forall j :: 0 <= j < end ==> opts[j] == opts[..end][j];
    if m > -1 then m else index
  }

  /** `findFirstFocusedOptionIndex` (line 741): the first valid selected
      option, else the first valid option, else -1. */
  function FindFirstFocusedOptionIndex(opts: seq<Val>, cfg: Config, value: Val): (r: int)
    ensures r == -1 || ValidAt(opts, cfg, r)
    ensures r == -1 <==> forall j :: !ValidAt(opts, cfg, j)
    ensures (exists j :: ValidSelectedAt(opts, cfg, value, j)) ==>
              ValidSelectedAt(opts, cfg, value, r) && forall j :: j < r ==> !ValidSelectedAt(opts, cfg, value, j)
    ensures (forall j :: !ValidSelectedAt(opts, cfg, value, j)) ==> forall j :: j < r ==> !ValidAt(opts, cfg, j)
  {
    var selected := FindSelectedOptionIndex(opts, cfg, value);
    if selected < 0 then FindFirstOptionIndex(opts, cfg) else selected
  }

  /** `findLastFocusedOptionIndex` (line 729): the FIRST valid selected
      option, else the last valid option, else -1. */
  function FindLastFocusedOptionIndex(opts: seq<Val>, cfg: Config, value: Val): (r: int)
    ensures r == -1 || ValidAt(opts, cfg, r)
    ensures r == -1 <==> forall j :: !ValidAt(opts, cfg, j)
    ensures (exists j :: ValidSelectedAt(opts, cfg, value, j)) ==>
              ValidSelectedAt(opts, cfg, value, r) && forall j :: j < r ==> !ValidSelectedAt(opts, cfg, value, j)
    ensures (forall j :: !ValidSelectedAt(opts, cfg, value, j)) ==> forall j :: r < j ==> !ValidAt(opts, cfg, j)
  {
    var selected := FindSelectedOptionIndex(opts, cfg, value);
    if selected < 0 then FindLastOptionIndex(opts, cfg) else selected
  }

  /** Moving down from a valid option and back up returns to it, unless it
      is the last valid option and the move down stayed put. */
  lemma NextThenPrev(opts: seq<Val>, cfg: Config, i: nat)
    requires ValidAt(opts, cfg, i)
    ensures FindNextOptionIndex(opts, cfg, i) != i ==>
              FindPrevOptionIndex(opts, cfg, FindNextOptionIndex(opts, cfg, i)) == i
  {
    var n := FindNextOptionIndex(opts, cfg, i);
  }

  /** Moving up from a valid option and back down returns to it, unless it
      is the first valid option and the move up stayed put. */
  lemma PrevThenNext(opts: seq<Val>, cfg: Config, i: nat)
    requires ValidAt(opts, cfg, i)
    ensures FindPrevOptionIndex(opts, cfg, i) != i ==>
              FindNextOptionIndex(opts, cfg, FindPrevOptionIndex(opts, cfg, i)) == i
  {
    var p := FindPrevOptionIndex(opts, cfg, i);
  }

  /** With the token `"b"` selected over the options `"a"` and `"b"`, the
      first focused option is `"a"`, where the intended `isSelected` would
      pick the token `"b"`. */
  lemma FirstFocusSkipsTokenAsWritten(cfg: Config)
    requires cfg.multiple
    ensures FindFirstFocusedOptionIndex([Str("a"), Str("b")], cfg, Arr([Str("b")])) == 0
    ensures FindSelectedOptionIndexIntended([Str("a"), Str("b")], cfg, Arr([Str("b")])) == 1
  {
    var opts := [Str("a"), Str("b")];
    assert ValidAt(opts, cfg, 0) && ValidSelectedIntendedAt(opts, cfg, Arr([Str("b")]), 1);
    assert !ValidSelectedIntendedAt(opts, cfg, Arr([Str("b")]), 0);
  }
}
