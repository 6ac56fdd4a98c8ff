/** Properties of the version parser and comparator, as the code of r658725 behaves. */
module VersionProperties {
  import opened Strings
  import opened ComparableVersion

  // ---------------------------------------------------------------------------
  // Shape of parsed items

  /** No list ends in a null item, at any depth. */
  predicate Normalized(a: Item)
    decreases a
  {
    match a
    case ListItem(xs) =>
      && (|xs| == 0 || !IsNull(xs[|xs| - 1]))
      && forall i :: 0 <= i < |xs| ==> Normalized(xs[i])
    case _ => true
  }

  /** A list holding only integers and qualifiers, as the parser builds them before closing. */
  predicate Flat(xs: seq<Item>) {
    forall i :: 0 <= i < |xs| ==> !xs[i].ListItem?
  }

  predicate FlatState(st: ScanState) {
    && Flat(st.current)
    && forall k :: 0 <= k < |st.enclosing| ==> Flat(st.enclosing[k])
  }

  lemma NormalizePrefixFlat(xs: seq<Item>)
    requires Flat(xs)
    ensures Flat(Normalize(xs))
  {
    var r := Normalize(xs);
    forall i | 0 <= i < |r| ensures !r[i].ListItem? {
      assert r[i] == xs[i];
    }
  }

  /** One step of the parsing loop only ever adds integers and qualifiers. */
  lemma StepFlat(v: string, i: nat, st: ScanState)
    requires st.start <= i < |v|
    requires FlatState(st)
    ensures FlatState(Step(v, i, st))
  {
    var cur := st.current + [SegmentItem(v, i, st)];
    assert Flat(cur);
    NormalizePrefixFlat(cur);
    var r := Step(v, i, st);
    if v[i] == '-' && st.isDigit && i + 1 < |v| && IsDigit(v[i + 1]) {
      assert r.enclosing == st.enclosing + [Normalize(cur)];
      forall k | 0 <= k < |r.enclosing| ensures Flat(r.enclosing[k]) {
        if k < |st.enclosing| {
          assert r.enclosing[k] == st.enclosing[k];
        }
      }
    }
  }

  lemma {:induction false} ScanFlat(v: string, i: nat, st: ScanState)
    requires st.start <= i <= |v|
    requires FlatState(st)
    ensures FlatState(Scan(v, i, st))
    decreases |v| - i
  {
    if i < |v| {
      StepFlat(v, i, st);
      ScanFlat(v, i + 1, Step(v, i, st));
    }
  }

  /** Closing the open lists, innermost first, leaves every list normalized. */
  lemma {:induction false} CloseNormalized(enclosing: seq<seq<Item>>, current: seq<Item>)
    requires forall k :: 0 <= k < |enclosing| ==> Flat(enclosing[k])
    requires forall i :: 0 <= i < |current| ==> Normalized(current[i])
    ensures Normalized(ListItem(Close(enclosing, current)))
    decreases |enclosing|
  {
    var n := Normalize(current);
    assert forall i :: 0 <= i < |n| ==> n[i] == current[i];
    if |enclosing| > 0 {
      var outer := enclosing[|enclosing| - 1] + [ListItem(n)];
      assert Normalized(ListItem(n));
      forall i | 0 <= i < |outer| ensures Normalized(outer[i]) {
        if i < |outer| - 1 {
          assert outer[i] == enclosing[|enclosing| - 1][i];
          assert !outer[i].ListItem?;
        }
      }
      CloseNormalized(enclosing[..|enclosing| - 1], outer);
    }
  }

  /** After parsing, no list ends in a null item (integer 0, release qualifier, empty list). */
  lemma ParsedIsNormalized(version: string)
    ensures Normalized(ListItem(ParseItems(version)))
  {
    var v := Lower(version);
    ScanFlat(v, 0, InitialState);
    var st := Finish(v, Scan(v, 0, InitialState));
    assert FlatState(st);
    CloseNormalized(st.enclosing, st.current);
  }

  /** Parsing lower-cases first, so the parse is blind to letter case. */
  lemma ParseIgnoresCase(version: string)
    ensures ParseItems(version) == ParseItems(Lower(version))
  {
    LowerIdempotent(version);
  }

  // ---------------------------------------------------------------------------
  // Trailing ".0" segments

  lemma NormalizeDropsNull(xs: seq<Item>, x: Item)
    requires IsNull(x)
    ensures Normalize(xs + [x]) == Normalize(xs)
  {
    assert (xs + [x])[..|xs|] == xs;
  }

  /** Scanning w from i equals scanning its prefix v first, when the character after v
      (if any) is not a digit: the only look-ahead of the loop sees the same answer. */
  lemma {:induction false} ScanPrefix(v: string, w: string, i: nat, st: ScanState)
    requires v <= w
    requires |w| > |v| ==> !IsDigit(w[|v|])
    requires st.start <= i <= |v|
    ensures Scan(w, i, st) == Scan(w, |v|, Scan(v, i, st))
    decreases |v| - i
  {
    if i < |v| {
      StepPrefix(v, w, i, st);
      ScanPrefix(v, w, i + 1, Step(v, i, st));
    }
  }

  /** Inside the prefix, a step sees the same buffer and the same lookahead. */
  lemma StepPrefix(v: string, w: string, i: nat, st: ScanState)
    requires v <= w
    requires |w| > |v| ==> !IsDigit(w[|v|])
    requires st.start <= i < |v|
    ensures Step(w, i, st) == Step(v, i, st)
  {
    assert w[st.start..i] == v[st.start..i];
    assert w[i] == v[i];
    assert (i + 1 < |w| && IsDigit(w[i + 1])) == (i + 1 < |v| && IsDigit(v[i + 1]));
  }

  /** Appending ".0" never changes the parse: "1.0.0", "1.0" and "1" are the same version. */
  lemma TrailingZeroIgnored(version: string)
    ensures ParseItems(version + ".0") == ParseItems(version)
  {
    var v := Lower(version);
    LowerAppend(version, ".0");
    assert Lower(".0") == ".0";
    var w := v + ".0";
    assert v <= w;
    var st := Scan(v, 0, InitialState);
    ScanPrefix(v, w, 0, InitialState);
    assert w[st.start..|v|] == v[st.start..];
    var afterDot := Step(w, |v|, st);
    var seg := SegmentItem(w, |v|, st);
    assert afterDot == ScanState(st.enclosing, st.current + [seg], st.isDigit, |v| + 1);
    var afterZero := Step(w, |v| + 1, afterDot);
    assert afterZero == afterDot.(isDigit := true);
    assert |w| == |v| + 2;
    assert Scan(w, |v|, st) == Scan(w, |v| + 1, afterDot);
    assert Scan(w, |v| + 1, afterDot) == Scan(w, |v| + 2, afterZero) == afterZero;
    assert Scan(w, 0, InitialState) == afterZero;
    assert w[|v| + 1..] == "0";
    assert ParseDecimal("0") == 0;
    var fw := Finish(w, afterZero);
    assert fw.current == st.current + [seg] + [IntItem(0)];
    var fv := Finish(v, st);
    assert fv.enclosing == fw.enclosing;
    NormalizeDropsNull(st.current + [seg], IntItem(0));
    if |v| > st.start {
      assert seg == ParseItem(st.isDigit, v[st.start..]);
      assert fv.current == st.current + [seg];
    } else {
      assert seg == IntItem(0);
      NormalizeDropsNull(st.current, seg);
      assert fv.current == st.current;
    }
    assert Normalize(fw.current) == Normalize(fv.current);
  }

  /** The version 1 parses to a single integer. */
  lemma ParseOne()
    ensures ParseItems("1") == [IntItem(1)]
  {
    assert Lower("1") == "1";
    assert ParseDecimal("1") == 1;
  }

  lemma TrailingZerosExamples()
    ensures ParseItems("1.0.0") == ParseItems("1.0") == ParseItems("1") == [IntItem(1)]
  {
    TrailingZeroIgnored("1.0");
    assert "1.0" + ".0" == "1.0.0";
    TrailingZeroIgnored("1");
    assert "1" + ".0" == "1.0";
    ParseOne();
  }

  // ---------------------------------------------------------------------------
  // Item ranks and null

  /** Integers rank above lists, lists above qualifiers. */
  function TypeRank(a: Item): nat {
    match a
    case StrItem(_) => 0
    case ListItem(_) => 1
    case IntItem(_) => 2
  }

  function Sign(x: int): int {
    if x < 0 then -1 else if x == 0 then 0 else 1
  }

  /** Items of different kinds compare by kind alone, whatever their contents. */
  lemma KindsRanked(rule: NullRule, a: Item, b: Item)
    requires TypeRank(a) != TypeRank(b)
    ensures Sign(CompareItems(rule, a, b)) == Sign(TypeRank(a) - TypeRank(b))
  {
  }

  /** An integer compared with nothing is equal exactly when it is 0, and greater otherwise. */
  lemma IntegerAgainstNothing(rule: NullRule, n: nat)
    ensures CompareToNull(rule, IntItem(n)) == 0 <==> IsNull(IntItem(n))
    ensures CompareToNull(rule, IntItem(n)) >= 0
  {
  }

  // ---------------------------------------------------------------------------
  // Qualifiers

  lemma QualifiersDistinct()
    ensures forall i, j :: 0 <= i < j < |Qualifiers| ==> Qualifiers[i] != Qualifiers[j]
  {
  }

  lemma KnownQualifierIndex(i: nat)
    requires i < |Qualifiers|
    ensures QualifierIndex(Qualifiers[i]) == i
    ensures ComparableQualifier(Qualifiers[i]) == [DigitChar(i)]
  {
    QualifiersDistinct();
  }

  lemma ReleaseIndexIsEmptyQualifier()
    ensures ReleaseVersionIndex == ComparableQualifier("") == "5"
  {
    assert Qualifiers[5] == "";
    KnownQualifierIndex(5);
  }

  /** Known qualifiers rank by their position: snapshot < alpha < beta < milestone < rc < "" < sp,
      and the comparison yields exactly the difference of the positions. */
  lemma KnownQualifiersByIndex(rule: NullRule, i: nat, j: nat)
    requires i < |Qualifiers| && j < |Qualifiers|
    ensures CompareItems(rule, StrItem(Qualifiers[i]), StrItem(Qualifiers[j])) == i - j
  {
    KnownQualifierIndex(i);
    KnownQualifierIndex(j);
  }

  lemma UnknownQualifierForm(q: string)
    requires q !in Qualifiers
    ensures ComparableQualifier(q) == "7-" + q
  {
    assert Decimal(|Qualifiers|) == "7";
  }

  /** An unknown qualifier ranks above every known one. */
  lemma UnknownAboveKnown(rule: NullRule, p: string, k: string)
    requires p !in Qualifiers && k in Qualifiers
    ensures CompareItems(rule, StrItem(p), StrItem(k)) > 0
  {
    UnknownQualifierForm(p);
    var j :| 0 <= j < |Qualifiers| && Qualifiers[j] == k;
    KnownQualifierIndex(j);
  }

  /** Unknown qualifiers compare among themselves as plain strings. */
  lemma UnknownQualifiersLexical(rule: NullRule, p: string, q: string)
    requires p !in Qualifiers && q !in Qualifiers
    ensures CompareItems(rule, StrItem(p), StrItem(q)) == CompareStrings(p, q)
  {
    UnknownQualifierForm(p);
    UnknownQualifierForm(q);
    CompareStringsCommonPrefix("7-", p, q);
  }

  /** Two qualifiers have the same comparable form only if they are the same qualifier. */
  lemma ComparableQualifierInjective(p: string, q: string)
    requires ComparableQualifier(p) == ComparableQualifier(q)
    ensures p == q
  {
    var i, j := QualifierIndex(p), QualifierIndex(q);
    if i == -1 && j == -1 {
      assert ComparableQualifier(p) == Decimal(|Qualifiers|) + "-" + p;
      assert p == ComparableQualifier(p)[2..];
      assert q == ComparableQualifier(q)[2..];
    } else if i != -1 && j != -1 {
      DecimalInjective(i, j);
    }
  }

  /** The release qualifier is the only null qualifier: the source's test, comparing the
      comparable form with the release's, holds exactly for the empty qualifier. */
  lemma NullQualifierIsRelease(rule: NullRule, q: string)
    ensures CompareStrings(ComparableQualifier(q), ReleaseVersionIndex) == 0 <==> IsNull(StrItem(q))
    ensures CompareToNull(rule, StrItem(q)) == 0 <==> q == ""
  {
    ReleaseIndexIsEmptyQualifier();
    if ComparableQualifier(q) == ReleaseVersionIndex {
      ComparableQualifierInjective(q, "");
    }
  }

  /** ga and final are aliases of the release, cr of rc; a, b and m directly followed by a
      digit abbreviate alpha, beta and milestone, and stay unknown otherwise. */
  lemma AliasesAndAbbreviations(followedByDigit: bool)
    ensures MakeStringItem("ga", followedByDigit) == StrItem("")
    ensures MakeStringItem("final", followedByDigit) == StrItem("")
    ensures MakeStringItem("cr", followedByDigit) == StrItem("rc")
    ensures MakeStringItem("a", true) == StrItem("alpha")
    ensures MakeStringItem("b", true) == StrItem("beta")
    ensures MakeStringItem("m", true) == StrItem("milestone")
    ensures MakeStringItem("a", false) == StrItem("a")
  {
  }

  // ---------------------------------------------------------------------------
  // The comparison is antisymmetric and reflexive

  lemma {:induction false} CompareAntisymmetric(rule: NullRule, a: Item, b: Item)
    ensures CompareItems(rule, a, b) == -CompareItems(rule, b, a)
    decreases a, b, 1
  {
    match a
    case IntItem(_) =>
    case StrItem(p) =>
      if b.StrItem? {
        CompareStringsAntisymmetric(ComparableQualifier(p), ComparableQualifier(b.q));
      }
    case ListItem(_) =>
      if b.ListItem? {
        ListsAntisymmetric(rule, a, b, 0);
      }
  }

  /** Swapping the lists negates the element-by-element loop, including the flipped
      comparison of a missing element. */
  lemma {:induction false} ListsAntisymmetric(rule: NullRule, a: Item, b: Item, i: nat)
    requires a.ListItem? && b.ListItem?
    ensures CompareListsFrom(rule, a, b, i) == -CompareListsFrom(rule, b, a, i)
    decreases a, b, 0, |a.items| + |b.items| - i
  {
    if i < |a.items| || i < |b.items| {
      if i < |a.items| && i < |b.items| {
        CompareAntisymmetric(rule, a.items[i], b.items[i]);
      }
      ListsAntisymmetric(rule, a, b, i + 1);
    }
  }

  lemma {:induction false} CompareReflexive(rule: NullRule, a: Item)
    ensures CompareItems(rule, a, a) == 0
    decreases a, 1
  {
    if a.ListItem? {
      ListsReflexive(rule, a, 0);
    }
  }

  lemma {:induction false} ListsReflexive(rule: NullRule, a: Item, i: nat)
    requires a.ListItem?
    ensures CompareListsFrom(rule, a, a, i) == 0
    decreases a, 0, |a.items| - i
  {
    if i < |a.items| {
      CompareReflexive(rule, a.items[i]);
      ListsReflexive(rule, a, i + 1);
    }
  }

  /** Versions with the same items are equal and compare as equal. */
  lemma SameItemsAgree(a: Version, b: Version)
    requires a.items == b.items
    requires a == ParseVersion(a.value) && b == ParseVersion(b.value)
    ensures VersionEquals(a, b)
    ensures CompareVersions(a, b) == 0
  {
    CompareReflexive(FirstItem, ListItem(a.items));
  }
}
