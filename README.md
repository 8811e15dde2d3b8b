# Locale catalog of the per-app locale module

This project models `LocaleList`, the locale catalog of an Android hook module
that forces a chosen display language onto individual applications. The
catalog takes every locale the platform offers and labels it with its display
name, first character upper-cased. It sorts the (label, locale) entries with a
collator. Then it lays them out in two index-aligned arrays, `localeCodes`
(language tags) and `localeDescriptions` (labels). Slot 0 of both is a
synthetic "default" entry: the `DEFAULT_LOCALE` sentinel with the caller's
default label. Two lookups read the arrays: `getLocale(pos)` returns the code
at a position, and `getLocalePos(code)` scans positions 1 and up for the first
exact match and falls back to 0.

Files:

- `platform.dfy`, module `Platform`: the platform facilities as parameters. A
  `Locale` is its language tag and its display name. A `Collator` is a
  comparison on strings, assumed to be a total preorder. `UpperCase` stands for
  `Character.toUpperCase`.
- `locale_list.dfy`, module `AppLocale`: `LocaleInfo` and `compareTo`,
  `toTitleCase`, the constructor with its three loops and the in-place sort,
  and the class `LocaleList` with its two arrays and four getters. The spec
  functions `Codes`, `Descriptions` and `PositionOf` say what the arrays and
  the scan hold; `Valid()` ties the arrays to the sorted entries.
- `catalog_properties.dfy`, module `CatalogProperties`: lemmas that relate
  several operations. The sorted entries hold each platform locale exactly as
  often as it is enumerated. `getLocale(getLocalePos(c)) == c` whenever the
  position found is not the fallback 0. `getLocalePos(getLocale(i)) == i` for
  every i >= 1 when the platform's tags are distinct; with a repeated tag the
  scan returns the earlier position.

The Java field `LocaleInfo.label` is called `description` here, because
`label` is a Dafny keyword.

Two points about what the code does:

- The label is the display name in the ambient default locale (the
  no-argument `getDisplayName()` at line 53). It is not the name in the
  locale's own language; the helper that would give that is never called.
- Labels from slot 1 on are in non-decreasing collator order, not strictly
  increasing: equal labels can sit side by side.

## Model

| member | source | states |
|---|---|---|
| `AppLocale.CompareToIsTotalPreorder` | app/src/main/java/com/flo354/xposed/applocale/LocaleList.java:37-40 | `CompareTo` (entries compare as their labels do under the shared collator) is total and transitive under a total-preorder collator, so it is a valid sort order |
| `AppLocale.Labelled` | app/src/main/java/com/flo354/xposed/applocale/LocaleList.java:53 | the entry built for a locale holds that locale, and its label is as long as the display name: empty when the name is empty, otherwise the name with only its first character passed through upper-casing |
| `AppLocale.Swap` | app/src/main/java/com/flo354/xposed/applocale/LocaleList.java:58 | one step of the in-place sort: two neighbouring entries change places, nothing else changes, and the array holds the same entries as before |
| `AppLocale.ToTitleCase` | app/src/main/java/com/flo354/xposed/applocale/LocaleList.java:70-76 | the empty string comes back unchanged; otherwise the length is kept, the first character is upper-cased and the rest is kept verbatim |
| `AppLocale.TitleCaseIdempotent` | app/src/main/java/com/flo354/xposed/applocale/LocaleList.java:70-76 | title-casing twice gives the same as once, when upper-casing is idempotent |
| `AppLocale.TitleCaseFixedPoint` | app/src/main/java/com/flo354/xposed/applocale/LocaleList.java:70-76 | a string is left unchanged if and only if it is empty or its first character is already upper case |
| `AppLocale.Preprocess` | app/src/main/java/com/flo354/xposed/applocale/LocaleList.java:50-54 | one entry per platform locale, in enumeration order, each holding the locale and its title-cased display name |
| `AppLocale.Label` | app/src/main/java/com/flo354/xposed/applocale/LocaleList.java:48-54 | the first loop fills a fresh array of the platform's length, and `finalSize` ends equal to the number of platform locales |
| `AppLocale.CopyPrefix` | app/src/main/java/com/flo354/xposed/applocale/LocaleList.java:56-57 | the copy holds the first `finalSize` entries of `preprocess`, in order |
| `AppLocale.SortEntries` | app/src/main/java/com/flo354/xposed/applocale/LocaleList.java:58 | after the sort, neighbouring entries are in `compareTo` order and the array holds the same entries as before |
| `AppLocale.AdjacentToPairwise` | app/src/main/java/com/flo354/xposed/applocale/LocaleList.java:58 | with a transitive collator, order between neighbours gives order between any earlier and any later entry |
| `AppLocale.Codes` | app/src/main/java/com/flo354/xposed/applocale/LocaleList.java:60-67 | the code list is one longer than the entries, starts with the sentinel, and position i holds the tag of sorted entry i-1 |
| `AppLocale.Descriptions` | app/src/main/java/com/flo354/xposed/applocale/LocaleList.java:60-67 | the label list is one longer than the entries, starts with the default label, and position i holds the label of sorted entry i-1 |
| `AppLocale.Fill` | app/src/main/java/com/flo354/xposed/applocale/LocaleList.java:60-67 | the last loop gives two fresh arrays holding exactly `Codes` and `Descriptions` of the sorted entries |
| `AppLocale.SortedDescriptions` | app/src/main/java/com/flo354/xposed/applocale/LocaleList.java:58-67 | when the entries are sorted, the labels from position 1 on are in non-decreasing collator order |
| `AppLocale.LocaleList.constructor` | app/src/main/java/com/flo354/xposed/applocale/LocaleList.java:47-68 | both arrays have length (number of platform locales) + 1; slot 0 holds the sentinel and exactly the default label; for i >= 1 the code and the label come from the same sorted entry; labels from 1 on are in collator order; the sorted entries are a permutation of the labelled platform locales |
| `AppLocale.PositionFrom` | app/src/main/java/com/flo354/xposed/applocale/LocaleList.java:103-107 | the scan from position i returns a matching position at or after i with no match before it, or 0 when nothing from i on matches |
| `AppLocale.PositionOf` | app/src/main/java/com/flo354/xposed/applocale/LocaleList.java:102-108 | the result is the smallest position i >= 1 whose code equals the argument, and it is 0 if and only if no position from 1 on matches; slot 0 is never looked at |
| `AppLocale.LocaleList.GetLocalePos` | app/src/main/java/com/flo354/xposed/applocale/LocaleList.java:102-108 | the linear scan with early return yields `PositionOf` of the catalog's codes |
| `AppLocale.LocaleList.GetLocale` | app/src/main/java/com/flo354/xposed/applocale/LocaleList.java:94-96 | for an in-range position, position 0 gives the sentinel and position i >= 1 gives the tag of sorted entry i-1 |
| `AppLocale.LocaleList.GetLocaleCodes` | app/src/main/java/com/flo354/xposed/applocale/LocaleList.java:110-112 | returns the codes array itself (not a copy), holding the sentinel and then the sorted tags |
| `AppLocale.LocaleList.GetDescriptionList` | app/src/main/java/com/flo354/xposed/applocale/LocaleList.java:117-119 | the labels in catalog order, as long as the code array and index-aligned with it |
| `CatalogProperties.PreprocessCount` | app/src/main/java/com/flo354/xposed/applocale/LocaleList.java:52-54 | the labelled entry of a locale occurs in `preprocess` exactly as often as the locale is enumerated |
| `CatalogProperties.EveryLocaleOnce` | app/src/main/java/com/flo354/xposed/applocale/LocaleList.java:49-57 | any permutation of the labelled locales is as long as the platform list, each entry carries its own locale's title-cased name, and each locale occurs as often as it is enumerated |
| `CatalogProperties.PositionOfCodeAt` | app/src/main/java/com/flo354/xposed/applocale/LocaleList.java:102-108 | a code stored at position i >= 1 is found at a position in [1, i], and exactly at i when no other position from 1 on repeats it |
| `CatalogProperties.PositionOfDefault` | app/src/main/java/com/flo354/xposed/applocale/LocaleList.java:102-108 | when no platform tag equals the sentinel, looking up the sentinel gives the fallback 0 |
| `CatalogProperties.LocaleAtPosition` | app/src/main/java/com/flo354/xposed/applocale/LocaleList.java:94-108 | the position lookup always returns an index `getLocale` accepts, and `getLocale` of a non-zero result is the code looked up |
| `CatalogProperties.PositionOfLocale` | app/src/main/java/com/flo354/xposed/applocale/LocaleList.java:94-108 | with distinct platform tags, looking up the code at any position i >= 1 gives back i |

## Left out

- `XposedMod.java` as a whole: hook installation, the shared-preference reads, the `Configuration` and context creation, and `Locale.setDefault`. They are foreign runtime calls and process-global state.
- `Common.java` is not part of this model. The value of `Common.DEFAULT_LOCALE` is taken to be `"DEFAULT"`; no proof depends on the value.
- The platform's real behaviour: `Locale.getAvailableLocales`, `getDisplayName`, `toLanguageTag`, `Collator` rules and Unicode `Character.toUpperCase`. They are parameters, and the collator is only assumed to be a total preorder. So the round trip of a tag through `forLanguageTag` is not modelled.
- The unused private helpers `getDisplayName(Locale)` and `getLocaleCode(Locale)` (lines 78-89): nothing calls them.
- `LocaleInfo.toString` (lines 33-35): nothing in the catalog calls it.
- The `Context` argument and the `Log` import, which play no part in the logic.
- `AppLocale.ToTitleCase`: strings here are sequences of Unicode scalar values, while `toTitleCase` works on UTF-16 units through `length()`, `charAt(0)` and `substring(1)`. For a display name that starts outside the Basic Multilingual Plane, Java upper-cases only the lone high surrogate, which `toUpperCase(char)` returns unchanged. So `upper` matches Java only if it is the identity on characters outside that plane, and the length that `ToTitleCase` keeps counts code points, not `length()`.
- Null references: a null `defaultLabel` or a null lookup code cannot be written with Dafny strings.
- `AppLocale.SortEntries`: does not state that `Arrays.sort` is stable (equal labels keep their enumeration order), and it is an insertion sort rather than the library's merge sort. The library's exception on a comparator that breaks its contract is replaced by a requirement: `SortEntries` asks for a total collator, and the constructor, which stands for the code that calls `Arrays.sort`, asks for a total preorder.
- `AppLocale.LocaleList.GetLocale`: a position out of range is a precondition here, where the Java code throws `ArrayIndexOutOfBoundsException`.
- `AppLocale.LocaleList.GetDescriptionList`: returns the labels as a value, not the fixed-size list view that `Arrays.asList` backs with the array.
