/** The locale catalog of the app-locale module (class `LocaleList`): every
    platform locale labelled with its title-cased display name, sorted by a
    collator, and laid out in two index-aligned arrays behind a synthetic
    "default" entry at slot 0. */
module AppLocale {
  import opened Platform

  /** The reserved code of the "no override" entry (`Common.DEFAULT_LOCALE`). */
  const DEFAULT_LOCALE: string := "DEFAULT"

  /** `LocaleList.LocaleInfo`: a display label paired with its locale. */
  datatype LocaleInfo = LocaleInfo(description: string, locale: Locale)

  /** `LocaleInfo.compareTo`: entries compare as their labels do. */
  function CompareTo(collator: Collator, x: LocaleInfo, y: LocaleInfo): (r: int)
  {
    collator(x.description, y.description)
  }

  /** `x` sorts no later than `y` under `compareTo`. */
  predicate SortsBefore(collator: Collator, x: LocaleInfo, y: LocaleInfo)
  {
    CompareTo(collator, x, y) <= 0
  }

  /** `compareTo` inherits a total preorder from the collator, so it is a
      comparator `Arrays.sort` may be given. */
  lemma CompareToIsTotalPreorder(collator: Collator)
    requires IsTotalPreorder(collator)
    ensures forall x, y :: SortsBefore(collator, x, y) || SortsBefore(collator, y, x)
    ensures forall x, y, z :: SortsBefore(collator, x, y) && SortsBefore(collator, y, z) ==> SortsBefore(collator, x, z)
  {
  }

  /** `toTitleCase`: the empty string as it is, otherwise the first
      character upper-cased and the rest kept verbatim. */
  function ToTitleCase(s: string, upper: UpperCase): (r: string)
    ensures |r| == |s|
    ensures s == [] ==> r == s
    ensures s != [] ==> r[0] == upper(s[0]) && r[1..] == s[1..]
  {
    if |s| == 0 then s else [upper(s[0])] + s[1..]
  }

  /** Title-casing twice is title-casing once when upper-casing is idempotent. */
  lemma TitleCaseIdempotent(s: string, upper: UpperCase)
    requires forall c :: upper(upper(c)) == upper(c)
    ensures ToTitleCase(ToTitleCase(s, upper), upper) == ToTitleCase(s, upper)
  {
  }

  /** A label is left unchanged exactly when it is empty or already starts
      with an upper-cased character. */
  lemma TitleCaseFixedPoint(s: string, upper: UpperCase)
    ensures ToTitleCase(s, upper) == s <==> (s == [] || upper(s[0]) == s[0])
  {
  }

  /** The entry the constructor builds for one platform locale. */
  function Labelled(l: Locale, upper: UpperCase): (r: LocaleInfo)
    ensures r.locale == l
    ensures |r.description| == |l.displayName|
    ensures l.displayName == [] ==> r.description == []
    ensures l.displayName != [] ==>
              r.description[0] == upper(l.displayName[0]) && r.description[1..] == l.displayName[1..]
  {
    LocaleInfo(ToTitleCase(l.displayName, upper), l)
  }

  /** The `preprocess` array once the constructor's first loop is done: one
      labelled entry per platform locale, in enumeration order. */
  function Preprocess(locales: seq<Locale>, upper: UpperCase): (r: seq<LocaleInfo>)
    ensures |r| == |locales|
    ensures forall i :: 0 <= i < |r| ==> r[i] == Labelled(locales[i], upper)
  {
    seq(|locales|, i requires 0 <= i < |locales| => Labelled(locales[i], upper))
  }

  /** Each pair of neighbours is in `compareTo` order. */
  ghost predicate AdjacentSorted(collator: Collator, s: seq<LocaleInfo>)
  {
    forall k :: 0 < k < |s| ==> SortsBefore(collator, s[k - 1], s[k])
  }

  /** Every earlier entry sorts no later than every later one. */
  ghost predicate Sorted(collator: Collator, s: seq<LocaleInfo>)
  {
    forall i, j :: 0 <= i < j < |s| ==> SortsBefore(collator, s[i], s[j])
  }

  /** The language tags the catalog holds: the sentinel, then one tag per sorted entry. */
  function Codes(entries: seq<LocaleInfo>): (r: seq<string>)
    ensures |r| == |entries| + 1
    ensures r[0] == DEFAULT_LOCALE
    ensures forall i :: 1 <= i < |r| ==> r[i] == entries[i - 1].locale.tag
  {
    [DEFAULT_LOCALE] + seq(|entries|, i requires 0 <= i < |entries| => entries[i].locale.tag)
  }

  /** The labels the catalog holds, index-aligned with `Codes`. */
  function Descriptions(entries: seq<LocaleInfo>, defaultLabel: string): (r: seq<string>)
    ensures |r| == |entries| + 1
    ensures r[0] == defaultLabel
    ensures forall i :: 1 <= i < |r| ==> r[i] == entries[i - 1].description
  {
    [defaultLabel] + seq(|entries|, i requires 0 <= i < |entries| => entries[i].description)
  }

  /** The scan of `getLocalePos` from position `i` on: the first matching
      position at or after `i`, or 0 when there is none. */
  function PositionFrom(codes: seq<string>, code: string, i: nat): (r: nat)
    requires 1 <= i
    ensures r == 0 || (i <= r < |codes| && codes[r] == code)
    ensures forall j :: i <= j < |codes| && (r == 0 || j < r) ==> codes[j] != code
    decreases |codes| - i
  {
    if i >= |codes| then 0
    else if codes[i] == code then i
    else PositionFrom(codes, code, i + 1)
  }

  /** What `getLocalePos` returns: the smallest position from 1 on holding
      `code`, and 0 when no such position exists. Slot 0 is never looked at. */
  function PositionOf(codes: seq<string>, code: string): (r: nat)
    ensures r < |codes| || r == 0
    ensures r != 0 ==> codes[r] == code && forall j :: 1 <= j < r ==> codes[j] != code
    ensures r == 0 <==> forall j :: 1 <= j < |codes| ==> codes[j] != code
  {
    PositionFrom(codes, code, 1)
  }

  /** Swaps two neighbouring entries in place. */
  method Swap(a: array<LocaleInfo>, j: nat)
    requires 0 < j < a.Length
    modifies a
    ensures a[..] == old(a[..])[j - 1 := old(a[j])][j := old(a[j - 1])]
    ensures multiset(a[..]) == multiset(old(a[..]))
  {
    a[j - 1], a[j] := a[j], a[j - 1];
  }

  /** `Arrays.sort(localeInfos)`: sorts the entries in place by `compareTo`,
      as an insertion sort. The collator need only be total here; the
      constructor, which calls it, asks for a total preorder. */
  method SortEntries(a: array<LocaleInfo>, collator: Collator)
    requires IsTotal(collator)
    modifies a
    ensures AdjacentSorted(collator, a[..])
    ensures multiset(a[..]) == multiset(old(a[..]))
  {
    if a.Length == 0 {
      return;
    }
    var i := 1;
    while i < a.Length
      invariant 1 <= i <= a.Length
      invariant forall k :: 0 < k < i ==> SortsBefore(collator, a[k - 1], a[k])
      invariant multiset(a[..]) == multiset(old(a[..]))
    {
      var j := i;
      while j > 0 && CompareTo(collator, a[j - 1], a[j]) > 0
        invariant 0 <= j <= i
        invariant forall k :: 0 < k <= i && k != j ==> SortsBefore(collator, a[k - 1], a[k])
        invariant 0 < j < i ==> SortsBefore(collator, a[j - 1], a[j + 1])
        invariant multiset(a[..]) == multiset(old(a[..]))
      {
        Swap(a, j);
        j := j - 1;
      }
      i := i + 1;
    }
  }

  /** The constructor's first loop: one labelled entry per platform locale
      into a fresh `preprocess` array, counting them in `finalSize`. */
  method Label(locales: seq<Locale>, upper: UpperCase) returns (preprocess: array<LocaleInfo>, finalSize: nat)
    ensures fresh(preprocess)
    ensures finalSize == preprocess.Length == |locales|
    ensures preprocess[..] == Preprocess(locales, upper)
  {
    preprocess := new LocaleInfo[|locales|];
    finalSize := 0;
    for k := 0 to |locales|
      invariant finalSize == k
      invariant forall m :: 0 <= m < finalSize ==> preprocess[m] == Labelled(locales[m], upper)
    {
      var info := LocaleInfo(ToTitleCase(locales[k].displayName, upper), locales[k]);
      assert info == Labelled(locales[k], upper);
      preprocess[finalSize] := info;
      finalSize := finalSize + 1;
    }
    assert preprocess[..] == Preprocess(locales, upper);
  }

  /** `System.arraycopy(src, 0, dst, 0, dst.Length)`. */
  method CopyPrefix(src: array<LocaleInfo>, dst: array<LocaleInfo>)
    requires dst.Length <= src.Length && src != dst
    modifies dst
    ensures dst[..] == src[..dst.Length]
  {
    for k := 0 to dst.Length
      invariant forall m :: 0 <= m < k ==> dst[m] == src[m]
    {
      dst[k] := src[k];
    }
  }

  /** The constructor's last loop: the default entry in slot 0, then the tag
      and the label of each sorted entry, into two fresh arrays. */
  method Fill(localeInfos: array<LocaleInfo>, defaultLabel: string)
    returns (codes: array<string>, descriptions: array<string>)
    ensures fresh(codes) && fresh(descriptions)
    ensures codes[..] == Codes(localeInfos[..])
    ensures descriptions[..] == Descriptions(localeInfos[..], defaultLabel)
  {
    var finalSize := localeInfos.Length;
    codes := new string[localeInfos.Length + 1];
    descriptions := new string[localeInfos.Length + 1];
    codes[0] := DEFAULT_LOCALE;
    descriptions[0] := defaultLabel;
    for i := 1 to finalSize + 1
      invariant codes[0] == DEFAULT_LOCALE && descriptions[0] == defaultLabel
      invariant forall m :: 1 <= m < i ==> codes[m] == localeInfos[m - 1].locale.tag
      invariant forall m :: 1 <= m < i ==> descriptions[m] == localeInfos[m - 1].description
    {
      codes[i] := localeInfos[i - 1].locale.tag;
      descriptions[i] := localeInfos[i - 1].description;
    }
    assert codes[..] == Codes(localeInfos[..]);
    assert descriptions[..] == Descriptions(localeInfos[..], defaultLabel);
  }

  /** The catalog. After construction neither array is written again. */
  class LocaleList {
    /** `localeCodes`: language tags, the sentinel first. */
    const localeCodes: array<string>
    /** `localeDescriptions`: labels, index-aligned with `localeCodes`. */
    const localeDescriptions: array<string>
    /** The sorted `localeInfos` the arrays were built from. */
    ghost const entries: seq<LocaleInfo>
    /** The label given to the constructor for slot 0. */
    ghost const defaultLabel: string

    /** Both arrays hold exactly what the sorted entries determine. */
    ghost predicate Valid()
      reads localeCodes, localeDescriptions
    {
      && localeCodes[..] == Codes(entries)
      && localeDescriptions[..] == Descriptions(entries, defaultLabel)
    }

    /** `LocaleList(Context, String)`: labels every platform locale, sorts
        the entries and fills both arrays behind the default entry. */
    constructor (locales: seq<Locale>, defaultLabel: string, collator: Collator, upper: UpperCase)
      requires IsTotalPreorder(collator)
      ensures Valid()
      ensures fresh(localeCodes) && fresh(localeDescriptions)
      ensures this.defaultLabel == defaultLabel
      ensures localeCodes.Length == localeDescriptions.Length == |locales| + 1
      ensures localeCodes[0] == DEFAULT_LOCALE && localeDescriptions[0] == defaultLabel
      ensures forall i :: 1 <= i < localeCodes.Length ==>
                localeCodes[i] == entries[i - 1].locale.tag && localeDescriptions[i] == entries[i - 1].description
      ensures forall i, j :: 1 <= i < j < localeDescriptions.Length ==>
                collator(localeDescriptions[i], localeDescriptions[j]) <= 0
      ensures multiset(entries) == multiset(Preprocess(locales, upper))
    {
      var preprocess, finalSize := Label(locales, upper);
      var localeInfos := new LocaleInfo[finalSize];
      CopyPrefix(preprocess, localeInfos);
      ghost var unsorted := localeInfos[..];
      assert unsorted == Preprocess(locales, upper);
      SortEntries(localeInfos, collator);
      ghost var sorted := localeInfos[..];
      assert multiset(sorted) == multiset(unsorted);
      AdjacentToPairwise(collator, sorted);
      var codes, descriptions := Fill(localeInfos, defaultLabel);
      localeCodes := codes;
      localeDescriptions := descriptions;
      entries := sorted;
      this.defaultLabel := defaultLabel;
      new;
      SortedDescriptions(collator, sorted, defaultLabel);
    }

    /** `getLocale(pos)`: the code at `pos`, which must be in range (the
        Java code throws on anything else). */
    function GetLocale(pos: int): (r: string)
      reads localeCodes, localeDescriptions
      requires Valid()
      requires 0 <= pos < localeCodes.Length
      ensures pos == 0 ==> r == DEFAULT_LOCALE
      ensures pos >= 1 ==> r == entries[pos - 1].locale.tag
    {
      localeCodes[pos]
    }

    /** `getLocalePos(code)`: scans positions 1 and up for the first exact
        match and falls back to 0. */
    method GetLocalePos(code: string) returns (pos: nat)
      requires Valid()
      ensures pos == PositionOf(Codes(entries), code)
    {
      var i := 1;
      while i < localeCodes.Length
        invariant 1 <= i <= localeCodes.Length
        invariant PositionFrom(localeCodes[..], code, i) == PositionOf(localeCodes[..], code)
      {
        if localeCodes[i] == code {
          return i;
        }
        i := i + 1;
      }
      return 0;
    }

    /** `getLocaleCodes()`: the codes array itself, not a copy. */
    function GetLocaleCodes(): (r: array<string>)
      reads localeCodes, localeDescriptions
      requires Valid()
      ensures r == localeCodes
      ensures r[..] == Codes(entries)
    {
      localeCodes
    }

    /** `getDescriptionList()`: the labels in catalog order. */
    function GetDescriptionList(): (r: seq<string>)
      reads localeCodes, localeDescriptions
      requires Valid()
      ensures r == Descriptions(entries, defaultLabel)
      ensures |r| == localeCodes.Length
    {
      localeDescriptions[..]
    }
  }

  /** With a transitive collator, neighbour-wise order is order between any two entries. */
  lemma {:induction false} AdjacentToPairwise(collator: Collator, s: seq<LocaleInfo>)
    requires IsTransitive(collator)
    requires AdjacentSorted(collator, s)
    ensures Sorted(collator, s)
  {
    if |s| > 1 {
      var t := s[..|s| - 1];
      assert AdjacentSorted(collator, t) by {
        forall k | 0 < k < |t| ensures SortsBefore(collator, t[k - 1], t[k]) {
          assert t[k - 1] == s[k - 1] && t[k] == s[k];
        }
      }
      AdjacentToPairwise(collator, t);
      forall i, j | 0 <= i < j < |s| ensures SortsBefore(collator, s[i], s[j]) {
        if j < |s| - 1 {
          assert s[i] == t[i] && s[j] == t[j];
        } else if i < j - 1 {
          assert SortsBefore(collator, t[i], t[j - 1]);
          assert SortsBefore(collator, s[j - 1], s[j]);
        }
      }
    }
  }

  /** Sorted entries give labels in collator order from slot 1 on. */
  lemma SortedDescriptions(collator: Collator, entries: seq<LocaleInfo>, defaultLabel: string)
    requires Sorted(collator, entries)
    ensures var d := Descriptions(entries, defaultLabel);
            forall i, j :: 1 <= i < j < |d| ==> collator(d[i], d[j]) <= 0
  {
  }
}
