/** The dynamic values the suggestion widget handles, and the few helpers
    of the utility library it calls on them (emptiness, truthiness,
    trimming, lower-casing), stated over an explicit value datatype. */
module Values {

  datatype Option<+T> = None | Some(value: T)

  /** A value the widget sees: `null`/`undefined` (one constructor), a
      string option, an object option with a label field and a disabled
      field, an array (the multi-selection value), or the header record
      `{ optionGroup, group: true, index }` that flattening inserts. */
  datatype Val =
    | Null
    | Str(s: string)
    | Obj(title: string, disabled: bool)
    | Arr(elems: seq<Val>)
    | GroupHeader(name: string, index: nat)

  /** An option group: its label and its resolved children (an absent
      children field is the empty sequence). */
  datatype Group = Group(name: string, children: seq<Val>)

  /** The host's `suggestions` prop: a flat list, or a list of groups when
      `optionGroupLabel` is configured (a `null` prop is `Flat([])`). */
  datatype Suggestions = Flat(items: seq<Val>) | Grouped(groups: seq<Group>)

  datatype DropdownMode = Blank | Current | Other

  /** The configuration props that stay fixed for the widget's lifetime. */
  datatype Config = Config(
    multiple: bool,
    grouped: bool,            // optionGroupLabel is set
    minLength: nat,
    selectionLimit: nat,      // 0 stands for "no limit" (a falsy prop)
    forceSelection: bool,
    hasField: bool,           // props.field is set
    hasOptionLabel: bool,     // props.optionLabel is set
    hasOptionDisabled: bool,  // props.optionDisabled is set
    selectOnFocus: bool,
    autoHighlight: bool,
    autoOptionFocus: bool,
    completeOnFocus: bool,
    showEmptyMessage: bool,
    disabled: bool,
    hasCompleteMethod: bool,
    dropdownMode: DropdownMode)

  /** `ObjectUtils.isNotEmpty`: null, the empty string and the empty array
      are empty; every object option carries fields and is not. */
  predicate IsNotEmpty(v: Val) {
    match v
    case Null => false
    case Str(s) => s != ""
    case Arr(e) => e != []
    case Obj(_, _) => true
    case GroupHeader(_, _) => true
  }

  /** JavaScript truthiness: the empty array is truthy, the empty string is not. */
  predicate Truthy(v: Val) {
    match v
    case Null => false
    case Str(s) => s != ""
    case _ => true
  }

  lemma NotEmptyIsTruthy(v: Val)
    ensures IsNotEmpty(v) ==> Truthy(v)
  {
  }

  /** The elements of an array value; `props.value || []` for the other values
      the multiple mode can hold. */
  function Tokens(v: Val): seq<Val> {
    if v.Arr? then v.elems else []
  }

  /** `String.prototype.length`: the number of UTF-16 code units, so a
      character outside the Basic Multilingual Plane counts twice. */
  function Utf16Length(s: string): (n: nat)
    ensures |s| <= n <= 2 * |s|
    ensures n == 0 <==> s == ""
    ensures (forall i :: 0 <= i < |s| ==> s[i] as int < 0x1_0000) ==> n == |s|
  {
    if s == "" then 0
    else
      assert forall i :: 0 <= i < |s| - 1 ==> s[..|s| - 1][i] == s[i];
      Utf16Length(s[..|s| - 1]) + (if s[|s| - 1] as int < 0x1_0000 then 1 else 2)
  }

  /** One character outside the Basic Multilingual Plane is two code units. */
  lemma AstralCharCountsTwice()
    ensures |"\U{1F600}"| == 1 && Utf16Length("\U{1F600}") == 2
  {
    assert "\U{1F600}"[..0] == "";
  }

  /** The white space `String.prototype.trim` removes (category Zs beyond
      U+0020 and U+00A0 is not listed). */
  predicate IsSpace(c: char) {
    c == ' ' || c == '\t' || c == '\n' || c == '\r' || c == '\U{000B}' || c == '\U{000C}'
    || c == '\U{00A0}' || c == '\U{2028}' || c == '\U{2029}' || c == '\U{FEFF}'
  }

  function TrimStart(s: string): (r: string)
    ensures |r| <= |s| && r == s[|s| - |r|..]
    ensures r != [] ==> !IsSpace(r[0])
    ensures forall i :: 0 <= i < |s| - |r| ==> IsSpace(s[i])
  {
    if |s| > 0 && IsSpace(s[0]) then TrimStart(s[1..]) else s
  }

  function TrimEnd(s: string): (r: string)
    ensures |r| <= |s| && r == s[..|r|]
    ensures r != [] ==> !IsSpace(r[|r| - 1])
    ensures forall i :: |r| <= i < |s| ==> IsSpace(s[i])
  {
    if |s| > 0 && IsSpace(s[|s| - 1]) then TrimEnd(s[..|s| - 1]) else s
  }

  /** `String.prototype.trim`. */
  function Trim(s: string): string {
    TrimEnd(TrimStart(s))
  }

  /** A string trims to the empty string exactly when it is all white space. */
  lemma TrimEmptyIffBlank(s: string)
    ensures Trim(s) == "" <==> forall i :: 0 <= i < |s| ==> IsSpace(s[i])
  {
    var t := TrimStart(s);
    if Trim(s) == "" {
      // every character of `t` would be trimmed from its end, its first
      // included, so nothing is left after trimming the start
      assert t == [];
    } else {
      var r := Trim(s);
      assert r[0] == t[0];
      assert t[0] == s[|s| - |t|];
      assert !IsSpace(s[|s| - |t|]);
    }
  }

  function LowerChar(c: char): char {
    if 'A' <= c <= 'Z' then (c as int - 'A' as int + 'a' as int) as char else c
  }

  /** `toLocaleLowerCase`, folded to the ASCII letters. */
  function Lower(s: string): string {
    seq(|s|, i requires 0 <= i < |s| => LowerChar(s[i]))
  }

  /** `formatValue` (line 193): the text the input shows for a value, once
      the assignment at line 214 has turned it into a string. A record with
      a field shows that field; anything else is returned as it is (lines
      204-207), so a record shows as `"[object Object]"` and an array as
      its elements joined by commas. */
  function FormatValue(v: Val, cfg: Config): string {
    if !IsNotEmpty(v) then ""
    else match v
      case Obj(title, _) => if cfg.hasField then title else "[object Object]"
      case _ => ElementText(v)
  }

  /** `String(x)` for a value inside an array: `null` becomes the empty
      string, as `Array.prototype.join` has it. */
  function ElementText(v: Val): string
    decreases v
  {
    match v
    case Null => ""
    case Str(s) => s
    case Obj(_, _) => "[object Object]"
    case GroupHeader(_, _) => "[object Object]"
    case Arr(e) => JoinText(e)
  }

  /** `Array.prototype.join` with the default separator `","`: the text of
      each element, one comma between neighbours. */
  function JoinText(e: seq<Val>): (r: string)
    decreases e
    ensures |e| >= 1 ==> |r| >= |e| - 1
  {
    if e == [] then ""
    else if |e| == 1 then ElementText(e[0])
    else JoinText(e[..|e| - 1]) + "," + ElementText(e[|e| - 1])
  }

  /** Appending an element to a non-empty array adds one comma and that
      element's text to the joined text. */
  lemma JoinTextAppend(e: seq<Val>, x: Val)
    requires |e| >= 1
    ensures JoinText(e + [x]) == JoinText(e) + "," + ElementText(x)
  {
    assert (e + [x])[..|e|] == e;
  }

  /** The input of a single-mode widget holding `["a", "b"]` reads `"a,b"`,
      and a `null` element leaves an empty place between the commas. */
  lemma ArrayValueShownJoined(cfg: Config)
    ensures FormatValue(Arr([Str("a"), Str("b")]), cfg) == "a,b"
    ensures FormatValue(Arr([Str("a"), Null, Str("b")]), cfg) == "a,,b"
    ensures FormatValue(Arr([Obj("x", false)]), cfg) == "[object Object]"
  {
    var e := [Str("a"), Null, Str("b")];
    assert e[..2] == [Str("a"), Null] && e[..2][..1] == [Str("a")];
    assert JoinText(e[..2][..1]) == "a" && ElementText(Null) == "";
    assert JoinText(e[..2]) == "a" + "," + "";
  }
}
