/** Properties of the catalog that relate several operations: the sorted
    entries account for every platform locale, and the two lookups agree. */
module CatalogProperties {
  import opened Platform
  import opened AppLocale

  /** `Preprocess` holds the labelled entry of `l` once for each time `l`
      is enumerated (that every entry is its own locale's labelled entry is
      `EveryLocaleOnce`). */
  lemma {:induction false} PreprocessCount(locales: seq<Locale>, upper: UpperCase, l: Locale)
    ensures multiset(Preprocess(locales, upper))[Labelled(l, upper)] == multiset(locales)[l]
  {
    if locales != [] {
      var rest := locales[1..];
      assert locales == [locales[0]] + rest;
      assert Preprocess(locales, upper) == [Labelled(locales[0], upper)] + Preprocess(rest, upper);
      PreprocessCount(rest, upper, l);
      assert Labelled(locales[0], upper) == Labelled(l, upper) <==> locales[0] == l;
    }
  }

  /** Any permutation of `Preprocess(locales)` (the constructor's sorted
      entries are one) has one entry per platform locale: it is as long,
      each of its entries carries its own locale's title-cased name, and
      each locale occurs in it exactly as often as it is enumerated. */
  lemma EveryLocaleOnce(entries: seq<LocaleInfo>, locales: seq<Locale>, upper: UpperCase)
    requires multiset(entries) == multiset(Preprocess(locales, upper))
    ensures |entries| == |locales|
    ensures forall i :: 0 <= i < |entries| ==> entries[i] == Labelled(entries[i].locale, upper)
    ensures forall l :: multiset(entries)[Labelled(l, upper)] == multiset(locales)[l]
  {
    assert |multiset(entries)| == |multiset(Preprocess(locales, upper))|;
    forall i | 0 <= i < |entries| ensures entries[i] == Labelled(entries[i].locale, upper) {
      assert entries[i] in multiset(Preprocess(locales, upper));
    }
    forall l ensures multiset(entries)[Labelled(l, upper)] == multiset(locales)[l] {
      PreprocessCount(locales, upper, l);
    }
  }

  /** A code found at position `i` is found there or earlier, never at 0;
      when no other position from 1 on repeats it, exactly at `i`. */
  lemma PositionOfCodeAt(codes: seq<string>, i: nat)
    requires 1 <= i < |codes|
    ensures 1 <= PositionOf(codes, codes[i]) <= i
    ensures (forall j :: 1 <= j < |codes| && j != i ==> codes[j] != codes[i]) ==> PositionOf(codes, codes[i]) == i
  {
  }

  /** The sentinel maps to 0 only through the fallback: no entry from 1 on
      carries it, so the scan finds nothing. */
  lemma PositionOfDefault(entries: seq<LocaleInfo>)
    requires forall e :: e in entries ==> e.locale.tag != DEFAULT_LOCALE
    ensures PositionOf(Codes(entries), DEFAULT_LOCALE) == 0
  {
  }

  /** `getLocale(getLocalePos(c)) == c` whenever the position is not the
      fallback 0, and the position is always one `getLocale` accepts. */
  lemma LocaleAtPosition(list: LocaleList, c: string)
    requires list.Valid()
    ensures PositionOf(Codes(list.entries), c) < list.localeCodes.Length
    ensures var p := PositionOf(Codes(list.entries), c);
            p != 0 ==> list.GetLocale(p) == c
  {
  }

  /** `getLocalePos(getLocale(i)) == i` for every position from 1 on when
      the platform's language tags are distinct. */
  lemma PositionOfLocale(list: LocaleList, i: nat)
    requires list.Valid()
    requires 1 <= i < list.localeCodes.Length
    requires forall j, k :: 0 <= j < k < |list.entries| ==> list.entries[j].locale.tag != list.entries[k].locale.tag
    ensures PositionOf(Codes(list.entries), list.GetLocale(i)) == i
  {
  }
}
