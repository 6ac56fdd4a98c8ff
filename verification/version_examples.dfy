/** Concrete versions whose parse and order the comparator's comments rely on, and the
    inputs on which comparison and equality part ways. Each example takes its version
    strings as parameters fixed by its precondition. */
module VersionExamples {
  import opened Strings
  import opened ComparableVersion
  import opened VersionProperties
  import opened VersionFindings

  /** A dash after a digit run, followed by a digit, closes the current list (normalized)
      and opens an empty nested one; no other character opens a list. */
  lemma NestingOnlyAtDigitDashDigit(v: string, i: nat, st: ScanState)
    requires st.start <= i < |v|
    ensures var opens := v[i] == '-' && st.isDigit && i + 1 < |v| && IsDigit(v[i + 1]);
      && |Step(v, i, st).enclosing| == |st.enclosing| + (if opens then 1 else 0)
      && (opens ==> Step(v, i, st).enclosing == st.enclosing + [Normalize(st.current + [SegmentItem(v, i, st)])])
      && (opens ==> Step(v, i, st).current == [])
  {
  }

  /** Inside a run of digits, or of characters that are neither digits nor separators,
      the parser only extends the pending buffer. */
  lemma {:induction false} ScanThroughRun(v: string, i: nat, j: nat, st: ScanState)
    requires st.start <= i <= j <= |v|
    requires forall k :: i <= k < j ==> v[k] != '.' && v[k] != '-' && IsDigit(v[k]) == st.isDigit
    ensures Scan(v, i, st) == Scan(v, j, st)
    decreases j - i
  {
    if i < j {
      assert Step(v, i, st) == st;
      ScanThroughRun(v, i + 1, j, st);
    }
  }

  /** The loop steps, one character class at a time; each links two calls of Scan. */

  /** A digit continuing a digit run, or starting the buffer, only extends the buffer. */
  lemma StepDigit(v: string, i: nat, st: ScanState)
    requires st.start <= i < |v| && IsDigit(v[i])
    requires st.isDigit || i == st.start
    ensures Scan(v, i, st) == Scan(v, i + 1, st.(isDigit := true))
  {
  }

  /** A letter continuing a letter run, or starting the buffer, only extends the buffer. */
  lemma StepLetter(v: string, i: nat, st: ScanState)
    requires st.start <= i < |v| && !IsDigit(v[i]) && v[i] != '.' && v[i] != '-'
    requires !st.isDigit || i == st.start
    ensures Scan(v, i, st) == Scan(v, i + 1, st.(isDigit := false))
  {
  }

  /** A digit after a letter run emits the run as a qualifier followed by a digit. */
  lemma StepLetterToDigit(v: string, i: nat, st: ScanState, item: Item, current: seq<Item>)
    requires st.start < i < |v| && IsDigit(v[i]) && !st.isDigit
    requires MakeStringItem(v[st.start..i], true) == item && st.current + [item] == current
    ensures Scan(v, i, st) == Scan(v, i + 1, ScanState(st.enclosing, current, true, i))
  {
  }

  /** A letter after a digit run emits the run as an integer. */
  lemma StepDigitToLetter(v: string, i: nat, st: ScanState, item: Item, current: seq<Item>)
    requires st.start < i < |v| && !IsDigit(v[i]) && v[i] != '.' && v[i] != '-' && st.isDigit
    requires ParseItem(true, v[st.start..i]) == item && st.current + [item] == current
    ensures Scan(v, i, st) == Scan(v, i + 1, ScanState(st.enclosing, current, false, i))
  {
  }

  /** A dot ends the segment, which becomes an item of the current list. */
  lemma StepDot(v: string, i: nat, st: ScanState, item: Item, current: seq<Item>)
    requires st.start <= i < |v| && v[i] == '.'
    requires SegmentItem(v, i, st) == item && st.current + [item] == current
    ensures Scan(v, i, st) == Scan(v, i + 1, ScanState(st.enclosing, current, st.isDigit, i + 1))
  {
  }

  /** A dash between a digit run and a digit closes the current list and opens a nested one. */
  lemma StepDashNest(v: string, i: nat, st: ScanState, item: Item, current: seq<Item>, enclosing: seq<seq<Item>>)
    requires st.start <= i && i + 1 < |v| && v[i] == '-' && st.isDigit && IsDigit(v[i + 1])
    requires SegmentItem(v, i, st) == item && st.current + [item] == current
    requires st.enclosing + [Normalize(current)] == enclosing
    ensures Scan(v, i, st) == Scan(v, i + 1, ScanState(enclosing, [], true, i + 1))
  {
  }

  /** A dash after a digit run, not followed by a digit, normalizes the current list. */
  lemma StepDashFlat(v: string, i: nat, st: ScanState, item: Item, current: seq<Item>, normalized: seq<Item>)
    requires st.start <= i < |v| && v[i] == '-' && st.isDigit
    requires !(i + 1 < |v| && IsDigit(v[i + 1]))
    requires SegmentItem(v, i, st) == item && st.current + [item] == current
    requires Normalize(current) == normalized
    ensures Scan(v, i, st) == Scan(v, i + 1, ScanState(st.enclosing, normalized, true, i + 1))
  {
  }

  /** The parse, given the state the loop ends in and the item made of the remaining buffer. */
  lemma ParseFromFinalState(v: string, st: ScanState, last: Item)
    requires forall k :: 0 <= k < |v| ==> !('A' <= v[k] <= 'Z')
    requires st.start < |v|
    requires Scan(v, 0, InitialState) == st
    requires ParseItem(st.isDigit, v[st.start..]) == last
    ensures ParseItems(v) == Close(st.enclosing, st.current + [last])
  {
    assert Lower(v) == v;
  }

  /** A flat list that does not end in null closes to itself. */
  lemma CloseFlat(items: seq<Item>)
    requires |items| > 0 && !IsNull(items[|items| - 1])
    ensures Close([], items) == items
  {
  }

  const DigitState := ScanState([], [], true, 0)

  lemma DigitFacts()
    ensures ParseDecimal("0") == 0 && ParseDecimal("1") == 1 && ParseDecimal("2") == 2
    ensures Decimal(1) == "1"
    ensures Normalize([IntItem(1)]) == [IntItem(1)]
  {
  }

  // ---------------------------------------------------------------------------
  // Parses

  /** A dash between digits nests: "1-1" is 1 followed by the list (1). */
  lemma ScanDashOne(v: string)
    requires v == "1-1"
    ensures Scan(v, 0, InitialState) == ScanState([[IntItem(1)]], [], true, 2)
  {
    DigitFacts();
    assert v[0..1] == "1";
    var s2 := ScanState([[IntItem(1)]], [], true, 2);
    StepDigit(v, 0, InitialState);
    StepDashNest(v, 1, DigitState, IntItem(1), [IntItem(1)], [[IntItem(1)]]);
    StepDigit(v, 2, s2);
  }

  /** Closing the list (1) around the nested list (1). */
  lemma CloseNestedOne(current: seq<Item>)
    requires current == [IntItem(1)]
    ensures Close([[IntItem(1)]], current) == [IntItem(1), ListItem([IntItem(1)])]
  {
    assert Normalize([IntItem(1)]) == [IntItem(1)];
    assert [IntItem(1)] + [ListItem([IntItem(1)])] == [IntItem(1), ListItem([IntItem(1)])];
  }

  lemma ParseDashOne(v: string)
    requires v == "1-1"
    ensures ParseItems(v) == [IntItem(1), ListItem([IntItem(1)])]
  {
    DigitFacts();
    ScanDashOne(v);
    assert v[2..] == "1";
    ParseFromFinalState(v, ScanState([[IntItem(1)]], [], true, 2), IntItem(1));
    CloseNestedOne([] + [IntItem(1)]);
  }

  lemma ScanDotOne(v: string)
    requires v == "1.1"
    ensures Scan(v, 0, InitialState) == ScanState([], [IntItem(1)], true, 2)
  {
    DigitFacts();
    assert v[0..1] == "1";
    var s2 := ScanState([], [IntItem(1)], true, 2);
    StepDigit(v, 0, InitialState);
    StepDot(v, 1, DigitState, IntItem(1), s2.current);
    StepDigit(v, 2, s2);
  }

  lemma ParseDotOne(v: string)
    requires v == "1.1"
    ensures ParseItems(v) == [IntItem(1), IntItem(1)]
  {
    DigitFacts();
    ScanDotOne(v);
    assert v[2..] == "1";
    ParseFromFinalState(v, ScanState([], [IntItem(1)], true, 2), IntItem(1));
  }

  /** The loop over "1.0-1" ends with the list (1) closed and an empty nested list open. */
  lemma ScanOneZeroDashOne(v: string)
    requires v == "1.0-1"
    ensures Scan(v, 0, InitialState) == ScanState([[IntItem(1)]], [], true, 4)
  {
    DigitFacts();
    assert v[0..1] == "1" && v[2..3] == "0";
    var s2 := ScanState([], [IntItem(1)], true, 2);
    var s4 := ScanState([[IntItem(1)]], [], true, 4);
    StepDigit(v, 0, InitialState);
    StepDot(v, 1, DigitState, IntItem(1), s2.current);
    StepDigit(v, 2, s2);
    assert Normalize([IntItem(1), IntItem(0)]) == [IntItem(1)];
    StepDashNest(v, 3, s2, IntItem(0), [IntItem(1), IntItem(0)], [[IntItem(1)]]);
    StepDigit(v, 4, s4);
  }

  /** "1.0-1" is normalized at the dash, so it parses like "1-1". */
  lemma ParseOneZeroDashOne(v: string)
    requires v == "1.0-1"
    ensures ParseItems(v) == [IntItem(1), ListItem([IntItem(1)])]
  {
    DigitFacts();
    ScanOneZeroDashOne(v);
    assert v[4..] == "1";
    ParseFromFinalState(v, ScanState([[IntItem(1)]], [], true, 4), IntItem(1));
    CloseNestedOne([] + [IntItem(1)]);
  }

  /** The loop over "1.0." ends with 1 and 0 in the list. */
  lemma ScanOneZeroDot(v: string)
    requires |v| > 4 && v[0] == '1' && v[1] == '.' && v[2] == '0' && v[3] == '.'
    ensures Scan(v, 0, InitialState) == Scan(v, 4, ScanState([], [IntItem(1), IntItem(0)], true, 4))
  {
    DigitFacts();
    assert v[0..1] == "1" && v[2..3] == "0";
    var s2 := ScanState([], [IntItem(1)], true, 2);
    var s4 := ScanState([], [IntItem(1), IntItem(0)], true, 4);
    StepDigit(v, 0, InitialState);
    StepDot(v, 1, DigitState, IntItem(1), s2.current);
    StepDigit(v, 2, s2);
    StepDot(v, 3, s2, IntItem(0), s4.current);
  }

  lemma ScanOneZeroDotOne(v: string)
    requires v == "1.0.1"
    ensures Scan(v, 0, InitialState) == ScanState([], [IntItem(1), IntItem(0)], true, 4)
  {
    ScanOneZeroDot(v);
    StepDigit(v, 4, ScanState([], [IntItem(1), IntItem(0)], true, 4));
  }

  lemma ParseOneZeroDotOne(v: string)
    requires v == "1.0.1"
    ensures ParseItems(v) == [IntItem(1), IntItem(0), IntItem(1)]
  {
    DigitFacts();
    ScanOneZeroDotOne(v);
    assert v[4..] == "1";
    ParseFromFinalState(v, ScanState([], [IntItem(1), IntItem(0)], true, 4), IntItem(1));
  }

  /** An empty segment before a separator is recorded as 0. */
  lemma ScanEmptySegment(v: string)
    requires v == "1..1"
    ensures Scan(v, 0, InitialState) == ScanState([], [IntItem(1), IntItem(0)], true, 3)
  {
    DigitFacts();
    assert v[0..1] == "1";
    var s2 := ScanState([], [IntItem(1)], true, 2);
    var s3 := ScanState([], [IntItem(1), IntItem(0)], true, 3);
    StepDigit(v, 0, InitialState);
    StepDot(v, 1, DigitState, IntItem(1), s2.current);
    StepDot(v, 2, s2, IntItem(0), s3.current);
    StepDigit(v, 3, s3);
  }

  lemma ParseEmptySegment(v: string)
    requires v == "1..1"
    ensures ParseItems(v) == [IntItem(1), IntItem(0), IntItem(1)]
  {
    DigitFacts();
    ScanEmptySegment(v);
    assert v[3..] == "1";
    ParseFromFinalState(v, ScanState([], [IntItem(1), IntItem(0)], true, 3), IntItem(1));
  }

  /** "1-q" with a two-letter qualifier q: the dash normalizes (1), and q is the pending buffer. */
  lemma ScanDashQualifier(v: string)
    requires |v| == 4 && v[0] == '1' && v[1] == '-' && !IsDigit(v[2]) && !IsDigit(v[3])
    requires v[2] != '.' && v[2] != '-' && v[3] != '.' && v[3] != '-'
    ensures Scan(v, 0, InitialState) == ScanState([], [IntItem(1)], false, 2)
  {
    DigitFacts();
    assert v[0..1] == "1";
    var s2 := ScanState([], [IntItem(1)], true, 2);
    var s3 := s2.(isDigit := false);
    StepDigit(v, 0, InitialState);
    StepDashFlat(v, 1, DigitState, IntItem(1), [IntItem(1)], [IntItem(1)]);
    StepLetter(v, 2, s2);
    StepLetter(v, 3, s3);
  }

  lemma ParseServicePack(v: string)
    requires v == "1-sp"
    ensures ParseItems(v) == [IntItem(1), StrItem("sp")]
  {
    DigitFacts();
    ScanDashQualifier(v);
    assert v[2..] == "sp";
    ParseFromFinalState(v, ScanState([], [IntItem(1)], false, 2), StrItem("sp"));
    CloseFlat([IntItem(1)] + [StrItem("sp")]);
  }

  /** ga is the release qualifier, which normalization removes: "1-ga" parses like "1". */
  lemma ParseGa(v: string)
    requires v == "1-ga"
    ensures ParseItems(v) == [IntItem(1)]
  {
    DigitFacts();
    ScanDashQualifier(v);
    assert v[2..] == "ga";
    ParseFromFinalState(v, ScanState([], [IntItem(1)], false, 2), StrItem(""));
  }

  /** A single a directly followed by a digit is alpha. */
  lemma ScanAlphaAbbreviation(v: string)
    requires v == "1a1"
    ensures Scan(v, 0, InitialState) == ScanState([], [IntItem(1), StrItem("alpha")], true, 2)
  {
    DigitFacts();
    assert v[0..1] == "1" && v[1..2] == "a";
    var s1 := ScanState([], [IntItem(1)], false, 1);
    var s2 := ScanState([], [IntItem(1), StrItem("alpha")], true, 2);
    StepDigit(v, 0, InitialState);
    StepDigitToLetter(v, 1, DigitState, IntItem(1), s1.current);
    StepLetterToDigit(v, 2, s1, StrItem("alpha"), s2.current);
  }

  lemma ParseAlphaAbbreviation(v: string)
    requires v == "1a1"
    ensures ParseItems(v) == [IntItem(1), StrItem("alpha"), IntItem(1)]
  {
    DigitFacts();
    ScanAlphaAbbreviation(v);
    assert v[2..] == "1";
    ParseFromFinalState(v, ScanState([], [IntItem(1), StrItem("alpha")], true, 2), IntItem(1));
  }

  lemma ScanOneZeroAlpha(v: string)
    requires v == "1.0.alpha"
    ensures Scan(v, 0, InitialState) == ScanState([], [IntItem(1), IntItem(0)], false, 4)
  {
    var s4 := ScanState([], [IntItem(1), IntItem(0)], true, 4);
    ScanOneZeroDot(v);
    StepLetter(v, 4, s4);
    ScanThroughRun(v, 5, 9, s4.(isDigit := false));
  }

  lemma ParseOneZeroAlpha(v: string)
    requires v == "1.0.alpha"
    ensures ParseItems(v) == [IntItem(1), IntItem(0), StrItem("alpha")]
  {
    ScanOneZeroAlpha(v);
    assert v[4..] == "alpha";
    ParseFromFinalState(v, ScanState([], [IntItem(1), IntItem(0)], false, 4), StrItem("alpha"));
  }

  /** The loop over "1.ga." ends with 1 and the release qualifier in the list. */
  lemma ScanOneGaDot(v: string)
    requires |v| > 5 && v[0] == '1' && v[1] == '.' && v[2] == 'g' && v[3] == 'a' && v[4] == '.'
    ensures Scan(v, 0, InitialState) == Scan(v, 5, ScanState([], [IntItem(1), StrItem("")], false, 5))
  {
    DigitFacts();
    assert v[0..1] == "1" && v[2..4] == "ga";
    var s2 := ScanState([], [IntItem(1)], true, 2);
    var s3 := s2.(isDigit := false);
    var s5 := ScanState([], [IntItem(1), StrItem("")], false, 5);
    StepDigit(v, 0, InitialState);
    StepDot(v, 1, DigitState, IntItem(1), s2.current);
    StepLetter(v, 2, s2);
    StepLetter(v, 3, s3);
    StepDot(v, 4, s3, StrItem(""), s5.current);
  }

  lemma ScanOneGaOne(v: string)
    requires v == "1.ga.1"
    ensures Scan(v, 0, InitialState) == ScanState([], [IntItem(1), StrItem("")], true, 5)
  {
    ScanOneGaDot(v);
    StepDigit(v, 5, ScanState([], [IntItem(1), StrItem("")], false, 5));
  }

  lemma ParseOneGaOne(v: string)
    requires v == "1.ga.1"
    ensures ParseItems(v) == [IntItem(1), StrItem(""), IntItem(1)]
  {
    DigitFacts();
    ScanOneGaOne(v);
    assert v[5..] == "1";
    ParseFromFinalState(v, ScanState([], [IntItem(1), StrItem("")], true, 5), IntItem(1));
  }

  /** The loop over "1-0.d" ends with the list (1) closed and the nested list holding 0. */
  lemma ScanDashZeroDot(v: string, d: nat)
    requires d == 1 || d == 2
    requires v == "1-0." + [DigitChar(d)]
    ensures Scan(v, 0, InitialState) == ScanState([[IntItem(1)]], [IntItem(0)], true, 4)
  {
    DigitFacts();
    assert v[0..1] == "1" && v[2..3] == "0" && v[3] == '.' && IsDigit(v[4]);
    var s2 := ScanState([[IntItem(1)]], [], true, 2);
    var s4 := ScanState([[IntItem(1)]], [IntItem(0)], true, 4);
    StepDigit(v, 0, InitialState);
    StepDashNest(v, 1, DigitState, IntItem(1), [IntItem(1)], [[IntItem(1)]]);
    StepDigit(v, 2, s2);
    StepDot(v, 3, s2, IntItem(0), s4.current);
    StepDigit(v, 4, s4);
  }

  /** "1-0.d": the list opened by the dash holds 0 and d. */
  lemma ParseDashZeroDot(v: string, d: nat)
    requires d == 1 || d == 2
    requires v == "1-0." + [DigitChar(d)]
    ensures ParseItems(v) == [IntItem(1), ListItem([IntItem(0), IntItem(d)])]
  {
    var s4 := ScanState([[IntItem(1)]], [IntItem(0)], true, 4);
    ScanDashZeroDot(v, d);
    assert v[4..] == [DigitChar(d)];
    assert ParseDecimal([DigitChar(d)]) == d;
    ParseFromFinalState(v, s4, IntItem(d));
    CloseNestedPair(s4.current + [IntItem(d)], d);
  }

  /** Closing the list (1) around the nested list (0, d). */
  lemma CloseNestedPair(current: seq<Item>, d: nat)
    requires d > 0 && current == [IntItem(0), IntItem(d)]
    ensures Close([[IntItem(1)]], current) == [IntItem(1), ListItem([IntItem(0), IntItem(d)])]
  {
    assert Normalize(current) == current;
    var outer := [IntItem(1)] + [ListItem(current)];
    assert outer == [IntItem(1), ListItem([IntItem(0), IntItem(d)])];
    assert Normalize(outer) == outer;
  }

  lemma ScanQualifierDot(v: string)
    requires v == "a.b"
    ensures Scan(v, 0, InitialState) == ScanState([], [StrItem("a")], false, 2)
  {
    assert v[0..1] == "a";
    var s2 := ScanState([], [StrItem("a")], false, 2);
    StepLetter(v, 0, InitialState);
    StepDot(v, 1, InitialState, StrItem("a"), s2.current);
    StepLetter(v, 2, s2);
  }

  /** A comma is an ordinary character: "a,b" is a single qualifier. */
  lemma ParseCommaQualifier(w: string)
    requires w == "a,b"
    ensures ParseItems(w) == [StrItem("a,b")]
  {
    assert w[0..] == w;
    ScanThroughRun(w, 0, 3, InitialState);
    ParseFromFinalState(w, InitialState, StrItem("a,b"));
  }

  /** A dot separates qualifiers; a comma is an ordinary character. */
  lemma ParseQualifierPair(v: string, w: string)
    requires v == "a.b" && w == "a,b"
    ensures ParseItems(v) == [StrItem("a"), StrItem("b")]
    ensures ParseItems(w) == [StrItem("a,b")]
  {
    ScanQualifierDot(v);
    assert v[2..] == "b";
    ParseFromFinalState(v, ScanState([], [StrItem("a")], false, 2), StrItem("b"));
    ParseCommaQualifier(w);
  }

  // ---------------------------------------------------------------------------
  // Qualifiers against the release

  lemma AlphaBeforeRelease(rule: NullRule)
    ensures CompareToNull(rule, StrItem("alpha")) < 0
  {
    assert Qualifiers[1] == "alpha";
    KnownQualifierIndex(1);
    ReleaseIndexIsEmptyQualifier();
  }

  lemma ServicePackAfterReleaseQualifier(rule: NullRule)
    ensures CompareToNull(rule, StrItem("sp")) > 0
  {
    assert Qualifiers[6] == "sp";
    KnownQualifierIndex(6);
    ReleaseIndexIsEmptyQualifier();
  }

  // ---------------------------------------------------------------------------
  // Item lists: comparisons and canonical forms

  lemma IntegerAboveNestedList(x: Item, y: Item)
    requires x == ListItem([IntItem(1), IntItem(1)])
    requires y == ListItem([IntItem(1), ListItem([IntItem(1)])])
    ensures CompareItems(FirstItem, x, y) > 0
  {
    assert CompareListsFrom(FirstItem, x, y, 1) == 1;
  }

  lemma NestedListBelowInteger(x: Item, y: Item)
    requires x == ListItem([IntItem(1), ListItem([IntItem(1)])])
    requires y == ListItem([IntItem(1), IntItem(0), IntItem(1)])
    ensures CompareItems(FirstItem, x, y) < 0
  {
    assert CompareListsFrom(FirstItem, x, y, 1) == -1;
  }

  lemma ServicePackItemsAfterRelease(x: Item, y: Item)
    requires x == ListItem([IntItem(1), StrItem("sp")])
    requires y == ListItem([IntItem(1)])
    ensures CompareItems(FirstItem, x, y) > 0
  {
    ServicePackAfterReleaseQualifier(FirstItem);
    assert CompareListsFrom(FirstItem, x, y, 2) == 0;
    assert CompareListsFrom(FirstItem, x, y, 1) > 0;
  }

  /** (1, 0, alpha) is below (1): 0 ties with the missing item and alpha is below it. */
  lemma ZeroAlphaBelowOne(rule: NullRule, x: Item, y: Item)
    requires x == ListItem([IntItem(1), IntItem(0), StrItem("alpha")])
    requires y == ListItem([IntItem(1)])
    ensures CompareItems(rule, x, y) < 0
  {
    AlphaBeforeRelease(rule);
    assert CompareListsFrom(rule, x, y, 3) == 0;
    assert CompareListsFrom(rule, x, y, 2) < 0;
    assert CompareListsFrom(rule, x, y, 1) < 0;
  }

  /** (1) is below (1, "", 1): "" ties with the missing item and 1 is above it. */
  lemma OneBelowGaOne(rule: NullRule, y: Item, z: Item)
    requires y == ListItem([IntItem(1)])
    requires z == ListItem([IntItem(1), StrItem(""), IntItem(1)])
    ensures CompareItems(rule, y, z) < 0
  {
    NullQualifierIsRelease(rule, "");
    assert CompareToNull(rule, z.items[1]) == 0;
    assert CompareToNull(rule, z.items[2]) == 1;
    assert CompareListsFrom(rule, y, z, 3) == 0;
    assert CompareListsFrom(rule, y, z, 2) == -1;
    assert CompareListsFrom(rule, y, z, 1) == -1;
    assert CompareItems(rule, y.items[0], z.items[0]) == 0;
  }

  /** (1, "", 1) is below (1, 0, alpha): at the second position a qualifier meets an integer. */
  lemma GaOneBelowZeroAlpha(rule: NullRule, z: Item, x: Item)
    requires z == ListItem([IntItem(1), StrItem(""), IntItem(1)])
    requires x == ListItem([IntItem(1), IntItem(0), StrItem("alpha")])
    ensures CompareItems(rule, z, x) < 0
  {
    assert CompareListsFrom(rule, z, x, 1) < 0;
  }

  lemma CycleItems(rule: NullRule, x: Item, y: Item, z: Item)
    requires x == ListItem([IntItem(1), IntItem(0), StrItem("alpha")])
    requires y == ListItem([IntItem(1)])
    requires z == ListItem([IntItem(1), StrItem(""), IntItem(1)])
    ensures CompareItems(rule, x, y) < 0
    ensures CompareItems(rule, y, z) < 0
    ensures CompareItems(rule, z, x) < 0
  {
    ZeroAlphaBelowOne(rule, x, y);
    OneBelowGaOne(rule, y, z);
    GaOneBelowZeroAlpha(rule, z, x);
  }

  lemma NestedZeroItems(x: Item, y: Item, z: Item)
    requires x == ListItem([IntItem(1), ListItem([IntItem(0), IntItem(1)])])
    requires y == ListItem([IntItem(1)])
    requires z == ListItem([IntItem(1), ListItem([IntItem(0), IntItem(2)])])
    ensures CompareItems(FirstItem, x, y) == 0
    ensures CompareItems(FirstItem, y, z) == 0
    ensures CompareItems(FirstItem, x, z) < 0
    ensures CompareItems(AllItems, x, y) > 0
    ensures ItemString(x) == "(1,(0,1))"
    ensures ItemString(y) == "(1)"
  {
    assert CompareListsFrom(FirstItem, x, y, 1) == 0;
    assert CompareListsFrom(FirstItem, y, z, 1) == 0;
    var p, q := x.items[1], z.items[1];
    assert CompareListsFrom(FirstItem, p, q, 1) < 0;
    assert CompareListsFrom(FirstItem, x, z, 1) < 0;
    assert NullCompareFrom(AllItems, p, 1) > 0;
    assert CompareListsFrom(AllItems, x, y, 1) > 0;
    assert Decimal(0) == "0" && Decimal(1) == "1";
    assert JoinItems(p, 1) == "1";
    assert JoinItems(p, 0) == "0,1";
    assert ItemString(p) == "(0,1)";
    assert JoinItems(x, 1) == "(0,1)";
    assert JoinItems(x, 0) == "1,(0,1)";
    assert JoinItems(y, 0) == "1";
  }

  /** (a, b) and ("a,b") print alike: the canonical form does not escape the comma. */
  lemma QualifierPairPrintsAlike(x: Item, y: Item)
    requires x == ListItem([StrItem("a"), StrItem("b")])
    requires y == ListItem([StrItem("a,b")])
    ensures ItemString(x) == ItemString(y) == "(a,b)"
  {
    assert JoinItems(x, 1) == "b";
    assert JoinItems(x, 0) == "a,b";
    assert JoinItems(y, 0) == "a,b";
  }

  /** (a, b) and ("a,b") differ at their first qualifier, so they compare non-zero. */
  lemma QualifierPairComparesNonZero(x: Item, y: Item)
    requires x == ListItem([StrItem("a"), StrItem("b")])
    requires y == ListItem([StrItem("a,b")])
    ensures CompareItems(FirstItem, x, y) != 0
  {
    assert "a" !in Qualifiers && "a,b" !in Qualifiers;
    UnknownQualifiersLexical(FirstItem, "a", "a,b");
    assert "a" != "a,b";
    var c := CompareItems(FirstItem, x.items[0], y.items[0]);
    assert c != 0;
    assert CompareListsFrom(FirstItem, x, y, 0) == c;
  }

  lemma QualifierPairItems(x: Item, y: Item)
    requires x == ListItem([StrItem("a"), StrItem("b")])
    requires y == ListItem([StrItem("a,b")])
    ensures ItemString(x) == ItemString(y) == "(a,b)"
    ensures CompareItems(FirstItem, x, y) != 0
  {
    QualifierPairPrintsAlike(x, y);
    QualifierPairComparesNonZero(x, y);
  }

  // ---------------------------------------------------------------------------
  // Orderings stated in the comparator's comments

  /** 1.1 > 1-1: an integer outranks a nested list. */
  lemma DotAboveDash(a: string, b: string)
    requires a == "1.1" && b == "1-1"
    ensures CompareVersions(ParseVersion(a), ParseVersion(b)) > 0
  {
    ParseDotOne(a);
    ParseDashOne(b);
    IntegerAboveNestedList(ListItem(ParseItems(a)), ListItem(ParseItems(b)));
  }

  /** "1.0-1" nests and so differs from "1.0.1", which it precedes. */
  lemma NestedBelowDotted(a: string, b: string)
    requires a == "1.0-1" && b == "1.0.1"
    ensures ParseItems(a) != ParseItems(b)
    ensures CompareVersions(ParseVersion(a), ParseVersion(b)) < 0
  {
    ParseOneZeroDashOne(a);
    ParseOneZeroDotOne(b);
    NestedListBelowInteger(ListItem(ParseItems(a)), ListItem(ParseItems(b)));
  }

  /** "1-ga" equals "1" in both senses. */
  lemma GaEqualsRelease(a: string, b: string)
    requires a == "1-ga" && b == "1"
    ensures CompareVersions(ParseVersion(a), ParseVersion(b)) == 0
    ensures VersionEquals(ParseVersion(a), ParseVersion(b))
  {
    ParseGa(a);
    ParseOne();
    SameItemsAgree(ParseVersion(a), ParseVersion(b));
  }

  /** sp ranks after the release: "1-sp" > "1". */
  lemma ServicePackAfterRelease(a: string, b: string)
    requires a == "1-sp" && b == "1"
    ensures CompareVersions(ParseVersion(a), ParseVersion(b)) > 0
  {
    ParseServicePack(a);
    ParseOne();
    ServicePackItemsAfterRelease(ListItem(ParseItems(a)), ListItem(ParseItems(b)));
  }

  /** The comparator is not transitive: "1.0.alpha" < "1" < "1.ga.1" < "1.0.alpha".
      Integer 0 and the release qualifier both equal nothing, yet an integer outranks
      every qualifier. This holds under either rule for lists. */
  lemma NotTransitive(rule: NullRule, a: string, b: string, c: string)
    requires a == "1.0.alpha" && b == "1" && c == "1.ga.1"
    ensures CompareItems(rule, ListItem(ParseItems(a)), ListItem(ParseItems(b))) < 0
    ensures CompareItems(rule, ListItem(ParseItems(b)), ListItem(ParseItems(c))) < 0
    ensures CompareItems(rule, ListItem(ParseItems(c)), ListItem(ParseItems(a))) < 0
  {
    ParseOneZeroAlpha(a);
    ParseOne();
    ParseOneGaOne(c);
    CycleItems(rule, ListItem(ParseItems(a)), ListItem(ParseItems(b)), ListItem(ParseItems(c)));
  }

  // ---------------------------------------------------------------------------
  // The inputs of the findings

  /** As written, "1-0.1" compares equal to "1" although their canonical forms differ,
      and "1" equals "1-0.2" while "1-0.1" < "1-0.2". */
  lemma FirstItemRuleCounterexample(a: string, b: string, c: string)
    requires a == "1-0.1" && b == "1" && c == "1-0.2"
    ensures CompareVersions(ParseVersion(a), ParseVersion(b)) == 0
    ensures !VersionEquals(ParseVersion(a), ParseVersion(b))
    ensures CompareVersions(ParseVersion(b), ParseVersion(c)) == 0
    ensures CompareVersions(ParseVersion(a), ParseVersion(c)) < 0
  {
    assert DigitChar(1) == '1' && DigitChar(2) == '2';
    ParseDashZeroDot(a, 1);
    ParseDashZeroDot(c, 2);
    ParseOne();
    NestedZeroItems(ListItem(ParseItems(a)), ListItem(ParseItems(b)), ListItem(ParseItems(c)));
  }

  /** Under the corrected rule, "1-0.1" is after "1". */
  lemma AllItemsRuleOrdersNestedZero(a: string, b: string)
    requires a == "1-0.1" && b == "1"
    ensures CompareVersionsFixed(ParseVersion(a), ParseVersion(b)) > 0
  {
    assert DigitChar(1) == '1' && DigitChar(2) == '2';
    ParseDashZeroDot(a, 1);
    ParseDashZeroDot("1-0.2", 2);
    ParseOne();
    NestedZeroItems(ListItem(ParseItems(a)), ListItem(ParseItems(b)), ListItem(ParseItems("1-0.2")));
  }

  /** As written, "a.b" and "a,b" print the same canonical form, so they are equal, yet
      they compare as different. */
  lemma CanonicalCollision(a: string, b: string)
    requires a == "a.b" && b == "a,b"
    ensures VersionEquals(ParseVersion(a), ParseVersion(b))
    ensures CompareVersions(ParseVersion(a), ParseVersion(b)) != 0
    ensures !VersionEqualsFixed(ParseVersion(a), ParseVersion(b))
  {
    ParseQualifierPair(a, b);
    QualifierPairItems(ListItem(ParseItems(a)), ListItem(ParseItems(b)));
  }
}
