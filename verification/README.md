# SKCraft launcher core in Dafny

A Dafny model of four pieces of the SKCraft Minecraft launcher (FoxFord fork), with proofs of their properties.

- **ComparableVersion** (`ComparableVersion`, `VersionProperties`, `VersionFindings`, `VersionExamples`). This is the launcher's copy of Maven's generic version comparator, revision r658725.
  - A version string is lower-cased and split into a tree of integer items, qualifier items and nested lists.
  - Trailing null items are removed.
  - Two trees compare recursively.
  - `equals` compares the canonical printed form.
  - The comparator is defined once and takes a `NullRule` parameter. `FirstItem` is the rule as written. `AllItems` is the corrected rule described under Findings.
- **Runtime discovery** (`FileSystems`, `JavaRuntimes`, `MinecraftJavaFinder`, `JavaRuntimeFinder`).
  - The disk is an abstract read-only file system. It has a set of file paths, and an ordered listing for each directory path. Some directories hold a release descriptor.
  - `normalizePath` and `getRuntimeFromPath` turn a candidate path into a runtime.
  - `scanPotentialRuntime` classifies a launcher's bundled runtime folder.
  - `scanLauncherDirectories` and `addJavaLocations` collect bundled runtimes in priority order.
  - `getAvailableRuntimes` unions the bundled, system and extra runtimes through a set and sorts them.
  - `findBestJavaRuntime` and `findAnyJavaRuntime` choose one runtime.
- **Offline login** (`LoginDialog`). `prepareLogin` accepts a username that is non-empty and made of `[a-zA-Z0-9_]`, and stores an `OfflineSession` for it.

JavaRuntime's `equals`, `compareTo` and `getMajorVersion` are not part of this model. They appear as function parameters:
- `key`: two runtimes are equal exactly when their keys are.
- `rank`: `compareTo` as a total preorder.
- `major`: the major version.

The platform finder's outputs are a `PlatformReport` parameter: the launcher directories, the candidate java locations and the extra runtimes. The environment is a parameter too: the platform, the APPDATA variable and the working directory.

Operations are recursive reference definitions. Three of them also have a method with loops, proved equal to the reference definition:
- `MinecraftJavaFinder.CollectLauncherRuntimes` follows the source's loops and equals `MinecraftJavaFinder.ScanLauncherDirectories`.
- `JavaRuntimeFinder.CollectDistinct` adds runtimes to a set of keys seen, as the HashSet union does, and equals `JavaRuntimeFinder.Dedup`.
- `LoginDialog.CheckUsername` checks the characters one by one and equals `LoginDialog.AcceptsUsername`, the non-empty test plus the regular-expression match.

The parsing, normalising, comparing and printing loops of ComparableVersion exist only in their recursive form.

Where the code and its comments or documentation disagree, the model follows the code:
- An unknown qualifier such as `foo` ranks above every known qualifier. Its comparable form is `7-foo`, which sorts after the digits `0`–`6`.
- `1-sp` is above `1`.
- `1-ga` equals `1`. The comment at line 266 says `1-ga > 1`; the alias table and normalisation make them equal (`VersionExamples.GaEqualsRelease`).
- The comment at MinecraftJavaFinder.java line 52 calls a directory that passes the addJavaLocations filter "a valid Java installation". Such a directory then goes to scanPotentialRuntime. Unless its name starts with `jre-x`, that function requires exactly one child directory. An ordinary JDK layout has at least `bin` and `lib`, so it adds nothing (`MinecraftJavaFinder.JdkLayoutSkipped`).
- The comparator is not transitive under either rule: `1.0.alpha < 1 < 1.ga.1 < 1.0.alpha` (`VersionExamples.NotTransitive`).
  - Integer 0 and the empty qualifier are both null.
  - Yet an integer ranks above a qualifier.

## Model

| member | source | states |
|---|---|---|
| Strings.Lower | launcher/src/main/java/com/skcraft/launcher/selfupdate/ComparableVersion.java:54 | lower-casing keeps the length and maps each character on its own: A–Z to a–z, everything else unchanged |
| Strings.LowerIdempotent | launcher/src/main/java/com/skcraft/launcher/selfupdate/ComparableVersion.java:54 | lower-casing an already lower-cased string changes nothing |
| Strings.LowerAppend | launcher/src/main/java/com/skcraft/launcher/selfupdate/ComparableVersion.java:54 | lower-casing distributes over concatenation |
| Strings.DigitChar | launcher/src/main/java/com/skcraft/launcher/selfupdate/ComparableVersion.java:253 | String.valueOf of an index below 10 is a single digit character |
| Strings.Decimal | launcher/src/main/java/com/skcraft/launcher/selfupdate/ComparableVersion.java:190-192 | an integer prints as a non-empty run of digits, and as a single digit exactly when it is below 10 |
| Strings.DecimalRoundTrip | launcher/src/main/java/com/skcraft/launcher/selfupdate/ComparableVersion.java:46 | parsing the printed form of an integer gives the integer back |
| Strings.DecimalInjective | launcher/src/main/java/com/skcraft/launcher/selfupdate/ComparableVersion.java:190-192 | distinct integers print differently |
| Strings.CompareStrings | launcher/src/main/java/com/skcraft/launcher/selfupdate/ComparableVersion.java:274 | String.compareTo is zero exactly for equal strings; the empty string against b gives minus the length of b |
| Strings.CompareStringsAntisymmetric | launcher/src/main/java/com/skcraft/launcher/selfupdate/ComparableVersion.java:274 | swapping the arguments negates the result |
| Strings.CompareStringsCommonPrefix | launcher/src/main/java/com/skcraft/launcher/selfupdate/ComparableVersion.java:253 | a common prefix such as `7-` does not change the comparison |
| ComparableVersion.IndexOf | launcher/src/main/java/com/skcraft/launcher/selfupdate/ComparableVersion.java:251 | List.indexOf is -1 exactly when the value is absent; otherwise it is the first position holding the value |
| ComparableVersion.Normalize | launcher/src/main/java/com/skcraft/launcher/selfupdate/ComparableVersion.java:304-313 | the result is a prefix of the list, does not end in a null item, and every removed item is null |
| ComparableVersion.CompareInts | launcher/src/main/java/com/skcraft/launcher/selfupdate/ComparableVersion.java:177 | Integer.compareTo is zero exactly for equal values and positive exactly when the left value is greater |
| ComparableVersion.ParseVersion | launcher/src/main/java/com/skcraft/launcher/selfupdate/ComparableVersion.java:49-50 | a parsed version keeps the exact string it came from, which is what toString returns |
| ComparableVersion.ParseItems | launcher/src/main/java/com/skcraft/launcher/selfupdate/ComparableVersion.java:49-121 | reference definition, no contract of its own: lower-case the string, run the character loop, add the pending buffer, then normalise the open lists innermost first; its properties are `VersionProperties.ParsedIsNormalized`, `VersionProperties.ParseIgnoresCase` and `VersionProperties.TrailingZeroIgnored` |
| ComparableVersion.Step | launcher/src/main/java/com/skcraft/launcher/selfupdate/ComparableVersion.java:66-108 | reference definition, no contract of its own: one pass of the loop body — a dot or dash ends the segment (an empty one as 0), a dash after digits normalises and nests before a following digit, and a switch between digits and other characters ends the run; `VersionExamples.NestingOnlyAtDigitDashDigit` states when it nests |
| ComparableVersion.Scan | launcher/src/main/java/com/skcraft/launcher/selfupdate/ComparableVersion.java:65-109 | reference definition, no contract of its own: the loop over every character; `VersionProperties.ScanFlat` and `VersionProperties.ScanPrefix` state its invariant and how it composes |
| ComparableVersion.Finish | launcher/src/main/java/com/skcraft/launcher/selfupdate/ComparableVersion.java:111-113 | reference definition, no contract of its own: a non-empty pending buffer becomes the last item of the current list |
| ComparableVersion.Close | launcher/src/main/java/com/skcraft/launcher/selfupdate/ComparableVersion.java:115-118 | reference definition, no contract of its own: pop and normalise every open list; `VersionProperties.CloseNormalized` states its result is normalised |
| ComparableVersion.MakeStringItem | launcher/src/main/java/com/skcraft/launcher/selfupdate/ComparableVersion.java:219-235 | reference definition, no contract of its own: the StringItem constructor expands a, b and m before a digit and then applies the alias table; `VersionProperties.AliasesAndAbbreviations` states the cases |
| ComparableVersion.ComparableQualifier | launcher/src/main/java/com/skcraft/launcher/selfupdate/ComparableVersion.java:250-254 | reference definition, no contract of its own: a known qualifier's index as a digit, or `7-` and the qualifier; its properties are `VersionProperties.KnownQualifierIndex`, `VersionProperties.UnknownQualifierForm` and `VersionProperties.ComparableQualifierInjective` |
| ComparableVersion.IsNull | launcher/src/main/java/com/skcraft/launcher/selfupdate/ComparableVersion.java:166-168 | reference definition, no contract of its own: integer 0, the release qualifier (lines 260-262) or the empty list (lines 300-302); `VersionProperties.NullQualifierIsRelease` proves the qualifier case equals the source's test |
| ComparableVersion.ItemString | launcher/src/main/java/com/skcraft/launcher/selfupdate/ComparableVersion.java:353-363 | reference definition, no contract of its own: a list prints its items between parentheses separated by commas, an integer in decimal and a qualifier as itself (lines 190-192, 284-286); `VersionExamples.QualifierPairItems` shows two different trees printing alike |
| ComparableVersion.CompareToNull | launcher/src/main/java/com/skcraft/launcher/selfupdate/ComparableVersion.java:316-321 | reference definition, no contract of its own: an item compared with nothing — an integer by being non-zero (line 172), a qualifier against the release index (line 267), and a list by its first item under the rule as written; its properties are `VersionProperties.IntegerAgainstNothing` and `VersionFindings.NullIffComparesEqualToNothing` |
| ComparableVersion.CompareItems | launcher/src/main/java/com/skcraft/launcher/selfupdate/ComparableVersion.java:170-351 | reference definition, no contract of its own: the three compareTo methods, dispatched on both kinds; its properties are `VersionProperties.KindsRanked`, `VersionProperties.CompareAntisymmetric` and `VersionProperties.CompareReflexive` |
| ComparableVersion.CompareListsFrom | launcher/src/main/java/com/skcraft/launcher/selfupdate/ComparableVersion.java:330-346 | reference definition, no contract of its own: the element loop of ListItem.compareTo, with a missing element compared as null; its properties are `VersionProperties.ListsAntisymmetric`, `VersionProperties.ListsReflexive` and `VersionFindings.ListsZeroMeansEqual` |
| ComparableVersion.CompareVersions | launcher/src/main/java/com/skcraft/launcher/selfupdate/ComparableVersion.java:123-125 | reference definition, no contract of its own: compareTo of the two item lists, under the rule as written; `VersionProperties.SameItemsAgree` and `VersionExamples.NotTransitive` state how it behaves |
| ComparableVersion.VersionEquals | launcher/src/main/java/com/skcraft/launcher/selfupdate/ComparableVersion.java:131-133 | reference definition, no contract of its own: equal canonical strings; `VersionExamples.CanonicalCollision` shows it disagreeing with compareTo |
| VersionProperties.ScanFlat | launcher/src/main/java/com/skcraft/launcher/selfupdate/ComparableVersion.java:65-109 | while scanning, the open lists hold only integers and qualifiers; a nested list only enters its parent when it is closed |
| VersionProperties.CloseNormalized | launcher/src/main/java/com/skcraft/launcher/selfupdate/ComparableVersion.java:115-118 | closing the open lists innermost first, normalising each, gives a tree in which no list ends in null |
| VersionProperties.ParsedIsNormalized | launcher/src/main/java/com/skcraft/launcher/selfupdate/ComparableVersion.java:111-120 | no list of a parsed version ends in a null item (integer 0, empty qualifier or empty list), at any depth |
| VersionProperties.ParseIgnoresCase | launcher/src/main/java/com/skcraft/launcher/selfupdate/ComparableVersion.java:54 | a version and its lower-cased form parse to the same items |
| VersionProperties.NormalizeDropsNull | launcher/src/main/java/com/skcraft/launcher/selfupdate/ComparableVersion.java:304-313 | appending a null item to a list does not change its normal form |
| VersionProperties.ScanPrefix | launcher/src/main/java/com/skcraft/launcher/selfupdate/ComparableVersion.java:65-109 | scanning an extension of a string continues from the state the string reached, provided the first added character is not a digit |
| VersionProperties.TrailingZeroIgnored | launcher/src/main/java/com/skcraft/launcher/selfupdate/ComparableVersion.java:111-120 | for every version v, `v.0` parses to the same items as v |
| VersionProperties.ParseOne | launcher/src/main/java/com/skcraft/launcher/selfupdate/ComparableVersion.java:111-113 | `1` parses to the single integer 1 |
| VersionProperties.TrailingZerosExamples | launcher/src/main/java/com/skcraft/launcher/selfupdate/ComparableVersion.java:115-120 | `1.0.0`, `1.0` and `1` all parse to the single integer 1 |
| VersionProperties.KindsRanked | launcher/src/main/java/com/skcraft/launcher/selfupdate/ComparableVersion.java:323-328 | items of different kinds compare by kind alone, under either rule: integer above list, and list above qualifier |
| VersionProperties.IntegerAgainstNothing | launcher/src/main/java/com/skcraft/launcher/selfupdate/ComparableVersion.java:170-173 | an integer against a missing item is never below it, and equal exactly when the integer is 0 |
| VersionProperties.QualifiersDistinct | launcher/src/main/java/com/skcraft/launcher/selfupdate/ComparableVersion.java:200 | the known qualifiers are pairwise distinct |
| VersionProperties.KnownQualifierIndex | launcher/src/main/java/com/skcraft/launcher/selfupdate/ComparableVersion.java:250-254 | the known qualifier at index i has comparable form "i" |
| VersionProperties.ReleaseIndexIsEmptyQualifier | launcher/src/main/java/com/skcraft/launcher/selfupdate/ComparableVersion.java:209 | the release index is "5", the comparable form of the empty qualifier |
| VersionProperties.KnownQualifiersByIndex | launcher/src/main/java/com/skcraft/launcher/selfupdate/ComparableVersion.java:273-274 | known qualifiers compare by their index in the list: snapshot < alpha < beta < milestone < rc < "" < sp |
| VersionProperties.UnknownQualifierForm | launcher/src/main/java/com/skcraft/launcher/selfupdate/ComparableVersion.java:253 | an unknown qualifier q has comparable form `7-q` |
| VersionProperties.UnknownAboveKnown | launcher/src/main/java/com/skcraft/launcher/selfupdate/ComparableVersion.java:250-254 | every unknown qualifier ranks above every known one |
| VersionProperties.UnknownQualifiersLexical | launcher/src/main/java/com/skcraft/launcher/selfupdate/ComparableVersion.java:274 | unknown qualifiers compare among themselves exactly as their strings do |
| VersionProperties.ComparableQualifierInjective | launcher/src/main/java/com/skcraft/launcher/selfupdate/ComparableVersion.java:250-254 | distinct qualifiers have distinct comparable forms |
| VersionProperties.NullQualifierIsRelease | launcher/src/main/java/com/skcraft/launcher/selfupdate/ComparableVersion.java:260-262 | the source's null test for a qualifier holds exactly for the empty qualifier, and under either rule only the empty qualifier compares equal to a missing item |
| VersionProperties.AliasesAndAbbreviations | launcher/src/main/java/com/skcraft/launcher/selfupdate/ComparableVersion.java:211-234 | `ga` and `final` become "", and `cr` becomes `rc`; `a`, `b` and `m` expand to alpha, beta and milestone when a digit follows, and `a` without a following digit stays `a` |
| VersionProperties.CompareAntisymmetric | launcher/src/main/java/com/skcraft/launcher/selfupdate/ComparableVersion.java:315-351 | comparing b with a gives the negation of comparing a with b, under either rule |
| VersionProperties.ListsAntisymmetric | launcher/src/main/java/com/skcraft/launcher/selfupdate/ComparableVersion.java:331-346 | the element-by-element loop is antisymmetric from every position |
| VersionProperties.CompareReflexive | launcher/src/main/java/com/skcraft/launcher/selfupdate/ComparableVersion.java:315-351 | every item compares equal to itself |
| VersionProperties.ListsReflexive | launcher/src/main/java/com/skcraft/launcher/selfupdate/ComparableVersion.java:331-346 | the element-by-element loop of a list against itself is zero from every position |
| VersionProperties.SameItemsAgree | launcher/src/main/java/com/skcraft/launcher/selfupdate/ComparableVersion.java:123-133 | two parsed versions with the same items are equal and compare as 0 |
| VersionFindings.NullCompareFindsNonZero | launcher/src/main/java/com/skcraft/launcher/selfupdate/ComparableVersion.java:316-321 | under the corrected rule, a list compares non-zero with a missing item once any of its elements does |
| VersionFindings.NonNullComparesNonZero | launcher/src/main/java/com/skcraft/launcher/selfupdate/ComparableVersion.java:316-321 | under the corrected rule, a normalised non-null item never compares equal to a missing item |
| VersionFindings.NullIffComparesEqualToNothing | launcher/src/main/java/com/skcraft/launcher/selfupdate/ComparableVersion.java:315-321 | under the corrected rule, a normalised item compares equal to a missing item exactly when it is null |
| VersionFindings.LeftExhausted | launcher/src/main/java/com/skcraft/launcher/selfupdate/ComparableVersion.java:334-339 | once the left list is exhausted, the loop is the negated comparison of the rest of the right list with missing items |
| VersionFindings.RightExhausted | launcher/src/main/java/com/skcraft/launcher/selfupdate/ComparableVersion.java:334-339 | once the right list is exhausted, the loop compares the rest of the left list with missing items |
| VersionFindings.ZeroMeansEqual | launcher/src/main/java/com/skcraft/launcher/selfupdate/ComparableVersion.java:315-351 | under the corrected rule, normalised items that compare as 0 are equal |
| VersionFindings.ListsZeroMeansEqual | launcher/src/main/java/com/skcraft/launcher/selfupdate/ComparableVersion.java:331-346 | under the corrected rule, a zero loop result from position i means the tails from i are equal |
| VersionFindings.FixedCompareMatchesEquality | launcher/src/main/java/com/skcraft/launcher/selfupdate/ComparableVersion.java:315-351 | under the corrected rule, normalised items compare as 0 exactly when they are equal |
| VersionFindings.FixedCompareMatchesParsedEquality | launcher/src/main/java/com/skcraft/launcher/selfupdate/ComparableVersion.java:123-137 | under the corrected rule, two versions compare as 0 exactly when their parsed items are equal, and then their canonical strings are equal too |
| VersionExamples.NestingOnlyAtDigitDashDigit | launcher/src/main/java/com/skcraft/launcher/selfupdate/ComparableVersion.java:83-93 | a scan step opens a nested list exactly at a dash that ends a digit run and is followed by a digit |
| VersionExamples.ParseDashOne | launcher/src/main/java/com/skcraft/launcher/selfupdate/ComparableVersion.java:83-93 | `1-1` parses to 1 followed by the nested list (1) |
| VersionExamples.ParseDotOne | launcher/src/main/java/com/skcraft/launcher/selfupdate/ComparableVersion.java:68-74 | `1.1` parses to the flat list 1, 1 |
| VersionExamples.ParseOneZeroDashOne | launcher/src/main/java/com/skcraft/launcher/selfupdate/ComparableVersion.java:84 | `1.0-1` parses like `1-1`, because the list is normalised at the dash |
| VersionExamples.ParseOneZeroDotOne | launcher/src/main/java/com/skcraft/launcher/selfupdate/ComparableVersion.java:68-74 | `1.0.1` parses to 1, 0, 1; a zero that is not trailing stays |
| VersionExamples.ParseEmptySegment | launcher/src/main/java/com/skcraft/launcher/selfupdate/ComparableVersion.java:69-70 | `1..1` parses to 1, 0, 1; the empty segment is recorded as 0 |
| VersionExamples.ParseServicePack | launcher/src/main/java/com/skcraft/launcher/selfupdate/ComparableVersion.java:111-113 | `1-sp` parses to 1 followed by the qualifier sp |
| VersionExamples.ParseGa | launcher/src/main/java/com/skcraft/launcher/selfupdate/ComparableVersion.java:212 | `1-ga` parses to 1 alone, because ga is the release qualifier and is normalised away |
| VersionExamples.ParseAlphaAbbreviation | launcher/src/main/java/com/skcraft/launcher/selfupdate/ComparableVersion.java:94-98 | `1a1` parses to 1, alpha, 1 |
| VersionExamples.ParseOneZeroAlpha | launcher/src/main/java/com/skcraft/launcher/selfupdate/ComparableVersion.java:101-108 | `1.0.alpha` parses to 1, 0, alpha |
| VersionExamples.ParseOneGaOne | launcher/src/main/java/com/skcraft/launcher/selfupdate/ComparableVersion.java:234 | `1.ga.1` parses to 1, "", 1; an inner release qualifier stays |
| VersionExamples.ParseDashZeroDot | launcher/src/main/java/com/skcraft/launcher/selfupdate/ComparableVersion.java:86-91 | `1-0.1` and `1-0.2` parse to 1 followed by the nested list (0, d) |
| VersionExamples.ParseQualifierPair | launcher/src/main/java/com/skcraft/launcher/selfupdate/ComparableVersion.java:101-108 | `a.b` parses to two qualifiers; in `a,b` the comma is an ordinary character, so it is one qualifier |
| VersionExamples.AlphaBeforeRelease | launcher/src/main/java/com/skcraft/launcher/selfupdate/ComparableVersion.java:265-267 | alpha is below a missing item |
| VersionExamples.ServicePackAfterReleaseQualifier | launcher/src/main/java/com/skcraft/launcher/selfupdate/ComparableVersion.java:265-267 | sp is above a missing item |
| VersionExamples.IntegerAboveNestedList | launcher/src/main/java/com/skcraft/launcher/selfupdate/ComparableVersion.java:183 | the items of `1.1` are above those of `1-1` |
| VersionExamples.NestedListBelowInteger | launcher/src/main/java/com/skcraft/launcher/selfupdate/ComparableVersion.java:325 | the items of `1-1` are below those of `1.0.1` |
| VersionExamples.ServicePackItemsAfterRelease | launcher/src/main/java/com/skcraft/launcher/selfupdate/ComparableVersion.java:265-267 | the items of `1-sp` are above those of `1` |
| VersionExamples.CycleItems | launcher/src/main/java/com/skcraft/launcher/selfupdate/ComparableVersion.java:315-351 | under either rule, the items of `1.0.alpha`, `1` and `1.ga.1` each compare below the next, cyclically |
| VersionExamples.NestedZeroItems | launcher/src/main/java/com/skcraft/launcher/selfupdate/ComparableVersion.java:316-321 | under the rule as written, (1,(0,1)) equals (1), and (1) equals (1,(0,2)), yet (1,(0,1)) is below (1,(0,2)); the corrected rule puts (1,(0,1)) above (1) |
| VersionExamples.QualifierPairItems | launcher/src/main/java/com/skcraft/launcher/selfupdate/ComparableVersion.java:353-363 | the item lists (a, b) and ("a,b") print the same, yet compare non-zero |
| VersionExamples.DotAboveDash | launcher/src/main/java/com/skcraft/launcher/selfupdate/ComparableVersion.java:183 | `1.1` is above `1-1` |
| VersionExamples.NestedBelowDotted | launcher/src/main/java/com/skcraft/launcher/selfupdate/ComparableVersion.java:325 | `1.0-1` and `1.0.1` parse differently, and the first is below the second |
| VersionExamples.GaEqualsRelease | launcher/src/main/java/com/skcraft/launcher/selfupdate/ComparableVersion.java:266 | `1-ga` equals `1` and compares as 0, whatever the comment says |
| VersionExamples.ServicePackAfterRelease | launcher/src/main/java/com/skcraft/launcher/selfupdate/ComparableVersion.java:265-267 | `1-sp` is above `1` |
| VersionExamples.NotTransitive | launcher/src/main/java/com/skcraft/launcher/selfupdate/ComparableVersion.java:315-351 | under either rule, `1.0.alpha` < `1` < `1.ga.1` < `1.0.alpha` |
| VersionExamples.FirstItemRuleCounterexample | launcher/src/main/java/com/skcraft/launcher/selfupdate/ComparableVersion.java:316-321 | as written, `1-0.1` compares as 0 with `1` without being equal to it, `1` compares as 0 with `1-0.2`, yet `1-0.1` is below `1-0.2` |
| VersionExamples.AllItemsRuleOrdersNestedZero | launcher/src/main/java/com/skcraft/launcher/selfupdate/ComparableVersion.java:316-321 | under the corrected rule, `1-0.1` is above `1` |
| VersionExamples.CanonicalCollision | launcher/src/main/java/com/skcraft/launcher/selfupdate/ComparableVersion.java:131-133 | `a.b` and `a,b` are equal by canonical string, yet compare non-zero and have different items |
| FileSystems.Parent | launcher/src/main/java/com/skcraft/launcher/launch/runtime/JavaRuntimeFinder.java:115 | getParentFile is null exactly for the root; otherwise appending the name gives the path back |
| FileSystems.List | launcher/src/main/java/com/skcraft/launcher/launch/runtime/MinecraftJavaFinder.java:34-35 | listFiles returns null exactly when the path is not a directory |
| MinecraftJavaFinder.ChildDirectories | launcher/src/main/java/com/skcraft/launcher/launch/runtime/MinecraftJavaFinder.java:73 | the names kept are exactly the listed names that are directories |
| MinecraftJavaFinder.ScanPotentialRuntime | launcher/src/main/java/com/skcraft/launcher/launch/runtime/MinecraftJavaFinder.java:61-91 | every runtime it returns is marked bundled, and a `jre-x` entry always gives a runtime rooted at the entry itself |
| MinecraftJavaFinder.FlatLayout | launcher/src/main/java/com/skcraft/launcher/launch/runtime/MinecraftJavaFinder.java:63-71 | a `jre-x` entry is 64-bit exactly when it is named `jre-x64`, and has a version exactly when its release descriptor is readable |
| MinecraftJavaFinder.NestedLayout | launcher/src/main/java/com/skcraft/launcher/launch/runtime/MinecraftJavaFinder.java:73-89 | any other entry gives a runtime exactly when it has one platform directory p and entry/p/name (plus `jre.bundle/Contents/Home` on macOS) has a release descriptor; the runtime is then rooted at exactly that java directory, marked bundled, with that descriptor's version and width |
| MinecraftJavaFinder.AmbiguousPlatformSkipped | launcher/src/main/java/com/skcraft/launcher/launch/runtime/MinecraftJavaFinder.java:74 | an entry with two distinct platform directories gives no runtime |
| MinecraftJavaFinder.JdkLayoutSkipped | launcher/src/main/java/com/skcraft/launcher/launch/runtime/MinecraftJavaFinder.java:48-59 | a directory holding java.exe next to bin and lib directories passes the addJavaLocations filter, yet adds no runtime, because scanPotentialRuntime (lines 73-74) requires exactly one child directory |
| MinecraftJavaFinder.AddJavaLocations | launcher/src/main/java/com/skcraft/launcher/launch/runtime/MinecraftJavaFinder.java:48-59 | the entries are kept as they are; one runtime is appended exactly when the directory lists `bin` in any case, has `java.exe` directly inside it, and scans as a runtime |
| MinecraftJavaFinder.HasJavaLocation | launcher/src/main/java/com/skcraft/launcher/launch/runtime/MinecraftJavaFinder.java:49-51 | reference definition, no contract of its own: the directory lists an entry whose lower-cased name is `bin` and holds `java.exe` directly; `MinecraftJavaFinder.AddJavaLocations` states what passing it does |
| MinecraftJavaFinder.FoxFordDir | launcher/src/main/java/com/skcraft/launcher/launch/runtime/MinecraftJavaFinder.java:24 | reference definition, no contract of its own: APPDATA (or the working directory when unset) followed by `.FoxFord\java`, which is two names on Windows and one elsewhere |
| MinecraftJavaFinder.AdoptiumDir | launcher/src/main/java/com/skcraft/launcher/launch/runtime/MinecraftJavaFinder.java:28 | reference definition, no contract of its own: `C:\Program Files\Eclipse Adoptium`, absolute on Windows and a relative single name elsewhere |
| MinecraftJavaFinder.PriorityRuntimes | launcher/src/main/java/com/skcraft/launcher/launch/runtime/MinecraftJavaFinder.java:23-29 | reference definition, no contract of its own: the FoxFord directory and then the Adoptium directory through addJavaLocations; `MinecraftJavaFinder.PriorityBundled` and `MinecraftJavaFinder.PriorityFirst` state its properties |
| MinecraftJavaFinder.ScanLauncherDirectories | launcher/src/main/java/com/skcraft/launcher/launch/runtime/MinecraftJavaFinder.java:20-46 | reference definition, no contract of its own: the priority runtimes, then every launcher directory's runtime folder in order; `MinecraftJavaFinder.CollectLauncherRuntimes`, `MinecraftJavaFinder.ScanInstallsMembers` and `MinecraftJavaFinder.AllBundled` state its properties |
| MinecraftJavaFinder.CollectFolderRuntimes | launcher/src/main/java/com/skcraft/launcher/launch/runtime/MinecraftJavaFinder.java:33-42 | the inner loop collects the successful scans of one runtime folder's entries, in listing order |
| MinecraftJavaFinder.CollectInstallRuntimes | launcher/src/main/java/com/skcraft/launcher/launch/runtime/MinecraftJavaFinder.java:32-43 | the outer loop concatenates the runtime folders' results launcher by launcher |
| MinecraftJavaFinder.CollectLauncherRuntimes | launcher/src/main/java/com/skcraft/launcher/launch/runtime/MinecraftJavaFinder.java:20-46 | the method with the source's loops computes the reference definition |
| MinecraftJavaFinder.ScanEntriesStep | launcher/src/main/java/com/skcraft/launcher/launch/runtime/MinecraftJavaFinder.java:36-41 | one more listed entry appends its runtime, if it has one |
| MinecraftJavaFinder.ScanInstallsStep | launcher/src/main/java/com/skcraft/launcher/launch/runtime/MinecraftJavaFinder.java:32-43 | one more launcher directory appends its runtime folder's runtimes |
| MinecraftJavaFinder.ScanEntriesMembers | launcher/src/main/java/com/skcraft/launcher/launch/runtime/MinecraftJavaFinder.java:36-41 | a runtime is collected from a folder exactly when some listed entry scans to it |
| MinecraftJavaFinder.ScanFolderMembers | launcher/src/main/java/com/skcraft/launcher/launch/runtime/MinecraftJavaFinder.java:33-35 | an unlistable runtime folder contributes nothing; a listable one contributes exactly its entries' runtimes |
| MinecraftJavaFinder.ScanInstallsMembers | launcher/src/main/java/com/skcraft/launcher/launch/runtime/MinecraftJavaFinder.java:31-43 | a runtime is found under the launcher directories exactly when an entry of some launcher's runtime folder scans to it |
| MinecraftJavaFinder.PriorityBundled | launcher/src/main/java/com/skcraft/launcher/launch/runtime/MinecraftJavaFinder.java:23-29 | the runtimes found in the FoxFord and Adoptium directories are marked bundled |
| MinecraftJavaFinder.AllBundled | launcher/src/main/java/com/skcraft/launcher/launch/runtime/MinecraftJavaFinder.java:61-91 | every runtime scanLauncherDirectories returns is marked bundled |
| MinecraftJavaFinder.PriorityFirst | launcher/src/main/java/com/skcraft/launcher/launch/runtime/MinecraftJavaFinder.java:23-29 | at most two runtimes come from the fixed directories; they come first, FoxFord before Adoptium, followed by the launcher directories' runtimes |
| JavaRuntimeFinder.NormalizePath | launcher/src/main/java/com/skcraft/launcher/launch/runtime/JavaRuntimeFinder.java:134-143 | the root is the target or one of its two nearest ancestors; there is none exactly for a file without a grandparent |
| JavaRuntimeFinder.RuntimeFromPath | launcher/src/main/java/com/skcraft/launcher/launch/runtime/JavaRuntimeFinder.java:92-119 | there is a runtime exactly when root/bin or root/jre/bin is a directory; its recorded root always holds a bin directory, and it is not marked bundled |
| JavaRuntimeFinder.RuntimeRootAndRelease | launcher/src/main/java/com/skcraft/launcher/launch/runtime/JavaRuntimeFinder.java:96-118 | the recorded root is the normalised path when root/bin is a directory, and root/jre otherwise; a missing descriptor gives no version and 64-bit, and a present one gives its version and width |
| JavaRuntimeFinder.ThreeFormsAgree | launcher/src/main/java/com/skcraft/launcher/launch/runtime/JavaRuntimeFinder.java:134-143 | the java executable, its bin directory and the install root normalise to the same root and give the same runtime, rooted there |
| JavaRuntimes.PresentMembers | launcher/src/main/java/com/skcraft/launcher/launch/runtime/JavaRuntimeFinder.java:49 | filtering out nulls keeps exactly the present values |
| JavaRuntimeFinder.SystemRuntimes | launcher/src/main/java/com/skcraft/launcher/launch/runtime/JavaRuntimeFinder.java:46-50 | reference definition, no contract of its own: getRuntimeFromPath of each candidate location with the nulls dropped; `JavaRuntimeFinder.SystemRuntimesMembers` states its members |
| JavaRuntimeFinder.SystemRuntimesMembers | launcher/src/main/java/com/skcraft/launcher/launch/runtime/JavaRuntimeFinder.java:46-50 | the system runtimes are exactly the runtimes some candidate location gives, and none is marked bundled |
| JavaRuntimeFinder.KeysOfSnoc | launcher/src/main/java/com/skcraft/launcher/launch/runtime/JavaRuntimeFinder.java:56 | adding a runtime adds exactly its key to the keys present |
| JavaRuntimeFinder.Dedup | launcher/src/main/java/com/skcraft/launcher/launch/runtime/JavaRuntimeFinder.java:55-58 | the union keeps every key of the input, and no key twice |
| JavaRuntimeFinder.DedupKeepsFirst | launcher/src/main/java/com/skcraft/launcher/launch/runtime/JavaRuntimeFinder.java:55-57 | a runtime is kept exactly when it is the first of its key in the input, since adding an element already present leaves the set unchanged |
| JavaRuntimeFinder.DedupDistinctUnchanged | launcher/src/main/java/com/skcraft/launcher/launch/runtime/JavaRuntimeFinder.java:55-58 | a list with distinct keys passes through the union unchanged |
| JavaRuntimeFinder.DedupIdempotent | launcher/src/main/java/com/skcraft/launcher/launch/runtime/JavaRuntimeFinder.java:55-58 | taking the union twice is taking it once |
| JavaRuntimeFinder.CollectDistinct | launcher/src/main/java/com/skcraft/launcher/launch/runtime/JavaRuntimeFinder.java:55-58 | the loop with a set of keys seen computes the union |
| JavaRuntimeFinder.Insert | launcher/src/main/java/com/skcraft/launcher/launch/runtime/JavaRuntimeFinder.java:63 | inserting gives a permutation of the list plus the new runtime |
| JavaRuntimeFinder.InsertSorted | launcher/src/main/java/com/skcraft/launcher/launch/runtime/JavaRuntimeFinder.java:63 | inserting into a sorted list keeps it sorted |
| JavaRuntimeFinder.InsertKeys | launcher/src/main/java/com/skcraft/launcher/launch/runtime/JavaRuntimeFinder.java:63 | inserting adds exactly the new runtime's key, and keeps keys distinct when that key is new |
| JavaRuntimeFinder.KeysOfCons | launcher/src/main/java/com/skcraft/launcher/launch/runtime/JavaRuntimeFinder.java:63 | putting a runtime in front adds exactly its key |
| JavaRuntimeFinder.ConsDistinct | launcher/src/main/java/com/skcraft/launcher/launch/runtime/JavaRuntimeFinder.java:63 | putting a runtime with a new key in front keeps keys distinct |
| JavaRuntimeFinder.SortByRank | launcher/src/main/java/com/skcraft/launcher/launch/runtime/JavaRuntimeFinder.java:63 | the sorted list is ordered by rank and is a permutation of the input |
| JavaRuntimeFinder.SortKeepsKeys | launcher/src/main/java/com/skcraft/launcher/launch/runtime/JavaRuntimeFinder.java:63 | sorting keeps the set of keys |
| JavaRuntimeFinder.SortKeepsDistinct | launcher/src/main/java/com/skcraft/launcher/launch/runtime/JavaRuntimeFinder.java:63 | sorting keeps distinct keys distinct |
| JavaRuntimeFinder.SortSameMembers | launcher/src/main/java/com/skcraft/launcher/launch/runtime/JavaRuntimeFinder.java:63 | the sorted list holds exactly the runtimes of the input |
| JavaRuntimeFinder.InsertAtEnd | launcher/src/main/java/com/skcraft/launcher/launch/runtime/JavaRuntimeFinder.java:63 | a runtime ranked no lower than every element of a sorted list goes at the end |
| JavaRuntimeFinder.SortSortedUnchanged | launcher/src/main/java/com/skcraft/launcher/launch/runtime/JavaRuntimeFinder.java:79 | sorting an already sorted list changes nothing |
| JavaRuntimeFinder.SortIdempotent | launcher/src/main/java/com/skcraft/launcher/launch/runtime/JavaRuntimeFinder.java:79 | sorting twice is sorting once |
| JavaRuntimeFinder.HasRuntimeFinder | launcher/src/main/java/com/skcraft/launcher/launch/runtime/JavaRuntimeFinder.java:121-132 | reference definition, no contract of its own: Windows, macOS and Linux have a platform finder and every other platform has none; `JavaRuntimeFinder.NothingWithoutFinder` states the consequence |
| JavaRuntimeFinder.Discovered | launcher/src/main/java/com/skcraft/launcher/launch/runtime/JavaRuntimeFinder.java:53-58 | reference definition, no contract of its own: the bundled runtimes, then the system runtimes, then the extra runtimes, in the order they are added to the set; `JavaRuntimeFinder.AvailableCoversDiscovered` relates it to the result |
| JavaRuntimeFinder.AvailableRuntimes | launcher/src/main/java/com/skcraft/launcher/launch/runtime/JavaRuntimeFinder.java:33-68 | the result is sorted and has no two equal runtimes; it is empty when there is no platform finder or the combined scan fails |
| JavaRuntimeFinder.AvailableCoversDiscovered | launcher/src/main/java/com/skcraft/launcher/launch/runtime/JavaRuntimeFinder.java:53-63 | every runtime a source reports is represented by exactly one runtime with its key, and every runtime returned was reported by a source |
| JavaRuntimeFinder.BundledWinsTies | launcher/src/main/java/com/skcraft/launcher/launch/runtime/JavaRuntimeFinder.java:55-57 | when a bundled runtime is equal to a system or extra runtime, the one returned for that key is a bundled one |
| JavaRuntimeFinder.FirstWithMajor | launcher/src/main/java/com/skcraft/launcher/launch/runtime/JavaRuntimeFinder.java:80-81 | there is none exactly when no element has the target major version; otherwise it is the position of the first that has it |
| JavaRuntimeFinder.FirstMatchRanksLowest | launcher/src/main/java/com/skcraft/launcher/launch/runtime/JavaRuntimeFinder.java:79-81 | in a sorted list, the first runtime with the target major version ranks no higher than any other runtime with it |
| JavaRuntimeFinder.FindBest | launcher/src/main/java/com/skcraft/launcher/launch/runtime/JavaRuntimeFinder.java:76-82 | the result is empty exactly when no runtime has the target major version; otherwise it is a runtime of the list with that version and the lowest rank among them |
| JavaRuntimeFinder.FindAny | launcher/src/main/java/com/skcraft/launcher/launch/runtime/JavaRuntimeFinder.java:84-86 | the result is empty exactly when the list is empty; otherwise it is a runtime of the list with the lowest rank |
| JavaRuntimeFinder.SelectionsUseAvailableOrder | launcher/src/main/java/com/skcraft/launcher/launch/runtime/JavaRuntimeFinder.java:76-86 | sorting the available list again changes nothing, so the selections take the first matching runtime, or the first runtime, of the list getAvailableRuntimes returns |
| JavaRuntimeFinder.NothingWithoutFinder | launcher/src/main/java/com/skcraft/launcher/launch/runtime/JavaRuntimeFinder.java:37-39 | with no platform finder, or when the scans fail, neither selection finds a runtime |
| LoginDialog.ClassRunEnd | launcher/src/main/java/com/skcraft/launcher/dialog/LoginDialog.java:133 | the greedy run of class characters ends between its start and the end of the string |
| LoginDialog.ClassRunEndIsFirstOutside | launcher/src/main/java/com/skcraft/launcher/dialog/LoginDialog.java:133 | the run consists of class characters and stops at the first character outside the class |
| LoginDialog.PatternMatchesClassStrings | launcher/src/main/java/com/skcraft/launcher/dialog/LoginDialog.java:133-135 | the whole-string match succeeds exactly when every character is an ASCII letter, digit or underscore |
| LoginDialog.AcceptsUsername | launcher/src/main/java/com/skcraft/launcher/dialog/LoginDialog.java:130-135 | reference definition, no contract of its own: the name is non-empty and matches `^[a-zA-Z0-9_]*$`; `LoginDialog.PatternMatchesClassStrings` and `LoginDialog.CheckUsername` characterise it |
| LoginDialog.CheckUsername | launcher/src/main/java/com/skcraft/launcher/dialog/LoginDialog.java:135 | a name is accepted exactly when it is non-empty and every character is an ASCII letter, digit or underscore |
| LoginDialog.PrepareLogin | launcher/src/main/java/com/skcraft/launcher/dialog/LoginDialog.java:130-146 | an accepted name becomes an OfflineSession carrying exactly that name; a rejected name leaves the session field as it was |
| LoginDialog.LoginOutcome | launcher/src/main/java/com/skcraft/launcher/dialog/LoginDialog.java:79-83 | reference definition, no contract of its own: the session field after the dialog closes, null until a name is accepted; `LoginDialog.LoginOutcomeIsFirstAccepted` characterises it |
| LoginDialog.LoginOutcomeIsFirstAccepted | launcher/src/main/java/com/skcraft/launcher/dialog/LoginDialog.java:79-83 | the dialog's session stays null exactly when every name entered is rejected; otherwise it carries the first accepted name |
| LoginDialog.SessionUsernameValid | launcher/src/main/java/com/skcraft/launcher/dialog/LoginDialog.java:133-136 | every session the dialog produces names a non-empty string of ASCII letters, digits and underscores |
| LoginDialog.RejectedExamples | launcher/src/main/java/com/skcraft/launcher/dialog/LoginDialog.java:133-139 | the empty name, `a b`, `a-b`, `é` and a name with a trailing newline are rejected; `Steve_99` is accepted |

## Left out

- Integer overflow: a digit run is an unbounded natural number. `new Integer(buf)` throws for runs above 2^31-1, and that error path is not modelled.
- Unicode: lower-casing and `Character.isDigit` are modelled for ASCII only. Java's `toLowerCase(Locale.ENGLISH)`, `Character.isDigit` and `String.toLowerCase` also map non-ASCII letters and digits.
- MinecraftJavaFinder.HasJavaLocation: the filter at MinecraftJavaFinder.java line 50 calls `toLowerCase()` with the default locale. Under a Turkish locale `BIN` lower-cases to `bın` with a dotless i, so the filter rejects it. The model lower-cases ASCII the same way in every locale and accepts it.
- Strings are sequences of characters. UTF-16 surrogate pairs are not distinguished.
- `ComparableVersion.IsNull`: the source tests a qualifier for null by comparing its comparable form with the release index. The model tests for the empty qualifier instead. `VersionProperties.NullQualifierIsRelease` proves the two tests agree.
- `hashCode` is not modelled. It follows `equals`, which is the canonical string.
- JavaRuntime is not part of this model: its `equals`, `compareTo` and `getMajorVersion` appear as parameters, and the sort assumes `compareTo` is a total preorder, given as a rank.
- `JavaReleaseFile.parseFromRelease` is not part of this model. The release descriptor a directory holds is part of the abstract file system, and an unreadable one is absent.
- The platform finders (WindowsRuntimeFinder and the macOS and Linux finders) are not part of this model. Their launcher directories, candidate locations and extra runtimes are the `PlatformReport` parameter.
- Concurrency: the two asynchronous scans are computed sequentially. A failure while waiting for them is the `joinFailed` parameter.
- Logging of that failure is not modelled.
- The iteration order of the HashSet is unspecified in Java. The model fixes it to first occurrence: bundled, then system, then extra. The sort afterwards decides the order, except among runtimes of equal rank.
- JavaRuntimeFinder.NormalizePath and JavaRuntimeFinder.RuntimeFromPath: a file directly under the root, such as `/java`, has no grandparent. In Java, normalizePath returns null there without throwing. getRuntimeFromPath then builds `release`, `bin`, `jre/release` and `jre/bin` from a null parent, which resolve against the working directory. It can therefore return a runtime rooted at the working directory's relative `jre`, or one whose root is null (the parent of a bare `bin`). The model returns no runtime in this case.
- `getAbsoluteFile` is not modelled: every path is taken as already absolute.
- Paths that resolve against the working directory are the working directory followed by the relative name. These are the FoxFord directory when APPDATA is unset, and the Adoptium directory off Windows.
- On Windows a backslash inside a name separates two names, and the model writes those names separately. Elsewhere it is an ordinary character.
- The file system is read-only and fixed for the duration of a scan. A listing that fails with an I/O error looks the same as a non-directory.
- `scanLauncherDirectoriesAsync` is left out, because it only wraps `scanLauncherDirectories` in a future.
- `showErrorDialog`, `dispose` and all other dialog and UI code are left out. The dialog's button presses are the sequence of names entered, and a name accepted ends the dialog.
- Also left out: the rest of LoginDialog, AccountSelectDialog, RedditLauncherFrame, MultiLineTableCellRenderer, RedditBackgroundPanel, LogglyHandler, LogglyIntegration, SharedLocale and SizeModifier. They are user interface, threads, HTTP log shipping, localisation and floating-point screen scaling, with no self-contained logic.

## Findings

| source | as written | input that shows it | evidently intended | confidence | as-written member | corrected member |
|---|---|---|---|---|---|---|
| launcher/src/main/java/com/skcraft/launcher/selfupdate/ComparableVersion.java:316-321 | a list compared with a missing item looks only at its first element | `1-0.1` compares as 0 with `1` but has a different canonical string; `1` compares as 0 with `1-0.2`, yet `1-0.1` is below `1-0.2` | compare every element with a missing item, so that 0 means equal items (later Maven versions do this) | not executed | VersionExamples.FirstItemRuleCounterexample | VersionFindings.FixedCompareMatchesParsedEquality |
| launcher/src/main/java/com/skcraft/launcher/selfupdate/ComparableVersion.java:131-133 | equals compares canonical strings, and the canonical form does not escape a comma inside a qualifier | `a.b` and `a,b` both print `(a,b)` and are equal, yet compare non-zero | equality that agrees with compareTo: equal parsed items | not executed | VersionExamples.CanonicalCollision | VersionFindings.FixedCompareMatchesParsedEquality |
