/** The platform facilities the locale catalog consumes, reduced to what the
    catalog relies on: a locale has a language tag and a display name, a
    collator is a comparison on strings, and upper-casing is a function on
    characters. Their real behaviour (CLDR data, BCP 47 serialisation,
    Unicode case mapping, collation rules) is not modelled. */
module Platform {

  /** A locale as the catalog sees it: `tag` is what `toLanguageTag()`
      returns and `displayName` what the no-argument `getDisplayName()`
      returns in the ambient default locale. */
  datatype Locale = Locale(tag: string, displayName: string)

  /** `Collator.compare`: negative, zero or positive as `a` sorts before,
      together with, or after `b`. */
  type Collator = (string, string) -> int

  /** `Character.toUpperCase`, here on one Unicode scalar value. */
  type UpperCase = char -> char

  /** Any two strings are comparable: one of them sorts no later than the other. */
  ghost predicate IsTotal(collator: Collator)
  {
    forall a, b :: collator(a, b) <= 0 || collator(b, a) <= 0
  }

  /** "Sorts no later than" is transitive. */
  ghost predicate IsTransitive(collator: Collator)
  {
    forall a, b, c :: collator(a, b) <= 0 && collator(b, c) <= 0 ==> collator(a, c) <= 0
  }

  /** What `Arrays.sort` may assume of a comparator: a total preorder. */
  ghost predicate IsTotalPreorder(collator: Collator)
  {
    IsTotal(collator) && IsTransitive(collator)
  }
}
