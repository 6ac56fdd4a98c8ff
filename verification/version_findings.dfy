/** Where the comparator of r658725 disagrees with equality, and the corrected rule for
    comparing a list with nothing (every item, not just the first) under which comparison
    and equality agree on parsed versions. */
module VersionFindings {
  import opened Strings
  import opened ComparableVersion
  import opened VersionProperties

  /** compareTo under the corrected rule. */
  function CompareVersionsFixed(a: Version, b: Version): int {
    CompareItems(AllItems, ListItem(a.items), ListItem(b.items))
  }

  /** equals as the structure of the parsed items, not their printed form. */
  predicate VersionEqualsFixed(a: Version, b: Version) {
    a.items == b.items
  }

  // ---------------------------------------------------------------------------
  // Under the corrected rule, a non-null normalized item never compares equal to nothing

  lemma {:induction false} NullCompareFindsNonZero(a: Item, i: nat, j: nat)
    requires a.ListItem?
    requires i <= j < |a.items|
    requires CompareToNull(AllItems, a.items[j]) != 0
    ensures NullCompareFrom(AllItems, a, i) != 0
    decreases j - i
  {
    if i < j && CompareToNull(AllItems, a.items[i]) == 0 {
      NullCompareFindsNonZero(a, i + 1, j);
    }
  }

  lemma {:induction false} NonNullComparesNonZero(a: Item)
    requires Normalized(a) && !IsNull(a)
    ensures CompareToNull(AllItems, a) != 0
    decreases a
  {
    if a.ListItem? {
      var last := |a.items| - 1;
      NonNullComparesNonZero(a.items[last]);
      NullCompareFindsNonZero(a, 0, last);
    }
  }

  /** A normalized item compares equal to nothing exactly when it is null. */
  lemma NullIffComparesEqualToNothing(a: Item)
    requires Normalized(a)
    ensures IsNull(a) <==> CompareToNull(AllItems, a) == 0
  {
    if !IsNull(a) {
      NonNullComparesNonZero(a);
    } else if a.StrItem? {
      NullQualifierIsRelease(AllItems, a.q);
    }
  }

  // ---------------------------------------------------------------------------
  // Under the corrected rule, comparison is zero exactly for equal normalized items

  /** Once the left list is exhausted, the loop is the flipped comparison of the rest of
      the right list with nothing. */
  lemma {:induction false} LeftExhausted(rule: NullRule, a: Item, b: Item, i: nat)
    requires a.ListItem? && b.ListItem?
    requires i >= |a.items|
    ensures CompareListsFrom(rule, a, b, i) == -NullCompareFrom(rule, b, i)
    decreases |b.items| - i
  {
    if i < |b.items| {
      LeftExhausted(rule, a, b, i + 1);
    }
  }

  lemma {:induction false} RightExhausted(rule: NullRule, a: Item, b: Item, i: nat)
    requires a.ListItem? && b.ListItem?
    requires i >= |b.items|
    ensures CompareListsFrom(rule, a, b, i) == NullCompareFrom(rule, a, i)
    decreases |a.items| - i
  {
    if i < |a.items| {
      RightExhausted(rule, a, b, i + 1);
    }
  }

  lemma {:induction false} ZeroMeansEqual(a: Item, b: Item)
    requires Normalized(a) && Normalized(b)
    requires CompareItems(AllItems, a, b) == 0
    ensures a == b
    decreases a, b, 1
  {
    match a
    case IntItem(_) =>
    case StrItem(p) =>
      ComparableQualifierInjective(p, b.q);
    case ListItem(xs) =>
      ListsZeroMeansEqual(a, b, 0);
      assert xs == xs[0..];
      assert b.items == b.items[0..];
  }

  lemma {:induction false} ListsZeroMeansEqual(a: Item, b: Item, i: nat)
    requires a.ListItem? && b.ListItem?
    requires Normalized(a) && Normalized(b)
    requires i <= |a.items| && i <= |b.items|
    requires CompareListsFrom(AllItems, a, b, i) == 0
    ensures a.items[i..] == b.items[i..]
    decreases a, b, 0, |a.items| + |b.items| - i
  {
    var xs, ys := a.items, b.items;
    if i == |xs| && i < |ys| {
      LeftExhausted(AllItems, a, b, i);
      NonNullComparesNonZero(ys[|ys| - 1]);
      NullCompareFindsNonZero(b, i, |ys| - 1);
    } else if i == |ys| && i < |xs| {
      RightExhausted(AllItems, a, b, i);
      NonNullComparesNonZero(xs[|xs| - 1]);
      NullCompareFindsNonZero(a, i, |xs| - 1);
    } else if i < |xs| && i < |ys| {
      ZeroMeansEqual(xs[i], ys[i]);
      ListsZeroMeansEqual(a, b, i + 1);
      assert xs[i..] == [xs[i]] + xs[i + 1..];
      assert ys[i..] == [ys[i]] + ys[i + 1..];
    }
  }

  /** Corrected rule: two normalized items compare as equal exactly when they are equal. */
  lemma FixedCompareMatchesEquality(a: Item, b: Item)
    requires Normalized(a) && Normalized(b)
    ensures CompareItems(AllItems, a, b) == 0 <==> a == b
  {
    if CompareItems(AllItems, a, b) == 0 {
      ZeroMeansEqual(a, b);
    } else {
      CompareReflexive(AllItems, a);
    }
  }

  /** Corrected rule on versions: compareTo is zero exactly when the parsed items are equal,
      and then the canonical strings are equal too. */
  lemma FixedCompareMatchesParsedEquality(s: string, t: string)
    ensures CompareVersionsFixed(ParseVersion(s), ParseVersion(t)) == 0
        <==> VersionEqualsFixed(ParseVersion(s), ParseVersion(t))
    ensures CompareVersionsFixed(ParseVersion(s), ParseVersion(t)) == 0
        ==> VersionEquals(ParseVersion(s), ParseVersion(t))
  {
    ParsedIsNormalized(s);
    ParsedIsNormalized(t);
    FixedCompareMatchesEquality(ListItem(ParseItems(s)), ListItem(ParseItems(t)));
  }
}
