/** Maven's generic version comparator (revision r658725), as copied into the launcher's
    self-update package. A version string is parsed into a tree of items: integers,
    qualifiers, and nested lists opened by a dash between two digits. */
module ComparableVersion {
  import opened Strings

  datatype Item =
    | IntItem(n: nat)
    | StrItem(q: string)
    | ListItem(items: seq<Item>)

  /** Known qualifiers, oldest first; the empty qualifier is the release. */
  const Qualifiers: seq<string> := ["snapshot", "alpha", "beta", "milestone", "rc", "", "sp"]

  /** List.indexOf: the first position holding x, or -1. */
  function IndexOf(xs: seq<string>, x: string): (i: int)
    ensures -1 <= i < |xs|
    ensures i == -1 <==> x !in xs
    ensures 0 <= i ==> xs[i] == x && x !in xs[..i]
  {
    if |xs| == 0 then -1
    else if xs[0] == x then 0
    else
      var j := IndexOf(xs[1..], x);
      assert xs[1..][..j + 1] == xs[1..j + 2];
      if j == -1 then -1 else j + 1
  }

  /** Position of the known qualifiers, as a function of the qualifier itself. */
  function QualifierIndex(q: string): int {
    IndexOf(Qualifiers, q)
  }

  /** The comparable form of a qualifier: its index among the known qualifiers as a
      decimal string, or the number of known qualifiers, a dash, and the qualifier. */
  function ComparableQualifier(q: string): string {
    var i := QualifierIndex(q);
    if i == -1 then Decimal(|Qualifiers|) + "-" + q else Decimal(i)
  }

  /** The comparable form of the release (empty) qualifier. */
  const ReleaseVersionIndex: string := Decimal(QualifierIndex(""))

  /** The alias table: ga and final mean release, cr means rc. */
  function Alias(q: string): string {
    if q == "ga" || q == "final" then ""
    else if q == "cr" then "rc"
    else q
  }

  /** The StringItem constructor: a single letter a, b or m directly followed by a digit
      is the abbreviation of alpha, beta or milestone; aliases are then replaced. */
  function MakeStringItem(value: string, followedByDigit: bool): Item {
    var expanded :=
      if followedByDigit && |value| == 1 then
        if value[0] == 'a' then "alpha"
        else if value[0] == 'b' then "beta"
        else if value[0] == 'm' then "milestone"
        else value
      else value;
    StrItem(Alias(expanded))
  }

  /** parseItem: a digit run becomes an integer, anything else a qualifier. */
  function ParseItem(isDigit: bool, buf: string): Item {
    if isDigit then IntItem(ParseDecimal(buf)) else MakeStringItem(buf, false)
  }

  /** isNull: integer 0, the release qualifier, or the empty list. The source tests a
      qualifier by comparing its comparable form with the release's; that comparison is
      zero exactly for the empty qualifier (VersionProperties.NullQualifierIsRelease),
      which is the form used here. */
  predicate IsNull(a: Item) {
    match a
    case IntItem(n) => n == 0
    case StrItem(q) => q == ""
    case ListItem(xs) => |xs| == 0
  }

  /** ListItem.normalize: drop the trailing null items. The result is the longest
      prefix that does not end in a null item, and only null items are dropped. */
  function Normalize(xs: seq<Item>): (r: seq<Item>)
    ensures r <= xs
    ensures |r| == 0 || !IsNull(r[|r| - 1])
    ensures forall i :: |r| <= i < |xs| ==> IsNull(xs[i])
  {
    if |xs| == 0 then []
    else if IsNull(xs[|xs| - 1]) then Normalize(xs[..|xs| - 1])
    else xs
  }

  // ---------------------------------------------------------------------------
  // Parsing

  /** The parser's loop state: the lists still open around the current one
      (outermost first), the list that receives items, whether the last character
      seen was a digit, and where the pending buffer starts. */
  datatype ScanState = ScanState(enclosing: seq<seq<Item>>, current: seq<Item>, isDigit: bool, start: nat)

  const InitialState := ScanState([], [], false, 0)

  /** The item recorded for the buffer ending at a separator: an empty buffer is 0. */
  function SegmentItem(v: string, i: nat, st: ScanState): Item
    requires st.start <= i <= |v|
  {
    if i == st.start then IntItem(0) else ParseItem(st.isDigit, v[st.start..i])
  }

  /** One iteration of the parsing loop, for the character at position i. */
  function Step(v: string, i: nat, st: ScanState): (r: ScanState)
    requires st.start <= i < |v|
    ensures r.start <= i + 1
  {
    var c := v[i];
    if c == '.' then
      ScanState(st.enclosing, st.current + [SegmentItem(v, i, st)], st.isDigit, i + 1)
    else if c == '-' then
      var cur := st.current + [SegmentItem(v, i, st)];
      if st.isDigit then
        var normalized := Normalize(cur);
        if i + 1 < |v| && IsDigit(v[i + 1]) then
          ScanState(st.enclosing + [normalized], [], st.isDigit, i + 1)
        else
          ScanState(st.enclosing, normalized, st.isDigit, i + 1)
      else
        ScanState(st.enclosing, cur, st.isDigit, i + 1)
    else if IsDigit(c) then
      if !st.isDigit && i > st.start then
        ScanState(st.enclosing, st.current + [MakeStringItem(v[st.start..i], true)], true, i)
      else
        st.(isDigit := true)
    else
      if st.isDigit && i > st.start then
        ScanState(st.enclosing, st.current + [ParseItem(true, v[st.start..i])], false, i)
      else
        st.(isDigit := false)
  }

  /** The parsing loop from position i to the end of v, starting in state st. */
  function Scan(v: string, i: nat, st: ScanState): (r: ScanState)
    requires st.start <= i <= |v|
    ensures r.start <= |v|
    decreases |v| - i
  {
    if i == |v| then st else Scan(v, i + 1, Step(v, i, st))
  }

  /** After the loop: the remaining buffer, if any, becomes the last item. */
  function Finish(v: string, st: ScanState): ScanState
    requires st.start <= |v|
  {
    if |v| > st.start then st.(current := st.current + [ParseItem(st.isDigit, v[st.start..])])
    else st
  }

  /** Popping the stack: normalize the innermost list, then each enclosing list,
      which holds the inner one as its last item. */
  function Close(enclosing: seq<seq<Item>>, current: seq<Item>): seq<Item>
    decreases |enclosing|
  {
    if |enclosing| == 0 then Normalize(current)
    else Close(enclosing[..|enclosing| - 1], enclosing[|enclosing| - 1] + [ListItem(Normalize(current))])
  }

  /** parseVersion: the item list of a version string, after lower-casing it. */
  function ParseItems(version: string): seq<Item> {
    var v := Lower(version);
    var st := Finish(v, Scan(v, 0, InitialState));
    Close(st.enclosing, st.current)
  }

  // ---------------------------------------------------------------------------
  // Canonical form

  /** toString of an item; a list prints as its items between parentheses, separated by commas. */
  function ItemString(a: Item): string
    decreases a, 1
  {
    match a
    case IntItem(n) => Decimal(n)
    case StrItem(q) => q
    case ListItem(_) => "(" + JoinItems(a, 0) + ")"
  }

  /** The items of the list a from position i on, separated by commas. */
  function JoinItems(a: Item, i: nat): string
    requires a.ListItem?
    decreases a, 0, |a.items| - i
  {
    if i >= |a.items| then ""
    else if i == |a.items| - 1 then ItemString(a.items[i])
    else ItemString(a.items[i]) + "," + JoinItems(a, i + 1)
  }

  // ---------------------------------------------------------------------------
  // Comparison

  /** How a list is compared with nothing: r658725 looks at its first item only;
      the corrected rule looks at every item until one is not null. */
  datatype NullRule = FirstItem | AllItems

  /** Integer.compareTo. */
  function CompareInts(m: nat, n: nat): (r: int)
    ensures r == 0 <==> m == n
    ensures r > 0 <==> m > n
    ensures -1 <= r <= 1
  {
    if m < n then -1 else if m == n then 0 else 1
  }

  /** item.compareTo(null). */
  function CompareToNull(rule: NullRule, a: Item): int
    decreases a, 1
  {
    match a
    case IntItem(n) => if n == 0 then 0 else 1
    case StrItem(q) => CompareStrings(ComparableQualifier(q), ReleaseVersionIndex)
    case ListItem(xs) =>
      if |xs| == 0 then 0
      else if rule == FirstItem then CompareToNull(rule, xs[0])
      else NullCompareFrom(rule, a, 0)
  }

  /** The first non-zero comparison with nothing among the items of a from position i on, or 0. */
  function NullCompareFrom(rule: NullRule, a: Item, i: nat): int
    requires a.ListItem?
    decreases a, 0, |a.items| - i
  {
    if i >= |a.items| then 0
    else
      var c := CompareToNull(rule, a.items[i]);
      if c != 0 then c else NullCompareFrom(rule, a, i + 1)
  }

  /** item.compareTo(other): integers rank above lists, lists above qualifiers. */
  function CompareItems(rule: NullRule, a: Item, b: Item): int
    decreases a, b, 1
  {
    match a
    case IntItem(m) =>
      (match b
       case IntItem(n) => CompareInts(m, n)
       case StrItem(_) => 1
       case ListItem(_) => 1)
    case StrItem(p) =>
      (match b
       case IntItem(_) => -1
       case StrItem(q) => CompareStrings(ComparableQualifier(p), ComparableQualifier(q))
       case ListItem(_) => -1)
    case ListItem(_) =>
      (match b
       case IntItem(_) => -1
       case StrItem(_) => 1
       case ListItem(_) => CompareListsFrom(rule, a, b, 0))
  }

  /** The element-by-element loop of ListItem.compareTo from position i on; a missing
      element on the left is compared as null with the sign flipped. */
  function CompareListsFrom(rule: NullRule, a: Item, b: Item, i: nat): int
    requires a.ListItem? && b.ListItem?
    decreases a, b, 0, |a.items| + |b.items| - i
  {
    var xs, ys := a.items, b.items;
    if i >= |xs| && i >= |ys| then 0
    else
      var result :=
        if i >= |xs| then -1 * CompareToNull(rule, ys[i])
        else if i >= |ys| then CompareToNull(rule, xs[i])
        else CompareItems(rule, xs[i], ys[i]);
      if result != 0 then result else CompareListsFrom(rule, a, b, i + 1)
  }

  // ---------------------------------------------------------------------------
  // ComparableVersion objects

  datatype Version = Version(value: string, canonical: string, items: seq<Item>)

  /** new ComparableVersion(s): the original text, the parsed items and their printed form. */
  function ParseVersion(s: string): (v: Version)
    ensures v.value == s
  {
    var items := ParseItems(s);
    Version(s, ItemString(ListItem(items)), items)
  }

  /** ComparableVersion.compareTo, as written. */
  function CompareVersions(a: Version, b: Version): int {
    CompareItems(FirstItem, ListItem(a.items), ListItem(b.items))
  }

  /** ComparableVersion.equals: equal canonical strings. */
  predicate VersionEquals(a: Version, b: Version) {
    a.canonical == b.canonical
  }
}
