/** The errors the checker throws, and the text each one describes itself with. */
module PolyglotErrors {
  import opened Wrappers
  import opened Text

  datatype SwiftPolyglotError =
    | MissingTranslations
    | NoLanguageCodes
      /** carries the variation key exactly as it appears in the catalog */
    | UnsupportedVariation(variation: string)

  const MissingTranslationsText: string := "Error: One or more translations are missing."

  const UsageText: string := "Usage: swiftpolyglot " + "<comma-separated language codes> [--errorOnMissing]"

  const VariationPrefix: string := "Variation type "

  const VariationSuffix: string := " is not supported. Please create an issue in GitHub"

  /** `errorDescription`: optional in its Swift type, present for every error. */
  function ErrorDescription(e: SwiftPolyglotError): (r: Option<string>)
    ensures r.Some?
    ensures e.MissingTranslations? ==> r.value == MissingTranslationsText
    ensures e.NoLanguageCodes? ==> r.value == UsageText
    ensures e.UnsupportedVariation? ==> Contains(r.value, Quote(e.variation))
  {
    match e
    case MissingTranslations => Some(MissingTranslationsText)
    case NoLanguageCodes => Some(UsageText)
    case UnsupportedVariation(variation) =>
      ContainsMiddle(VariationPrefix, Quote(variation), VariationSuffix);
      Some(VariationPrefix + Quote(variation) + VariationSuffix)
  }

  /** No two errors describe themselves alike: in particular the description
      of an unsupported variation determines the variation key. */
  lemma DescriptionDeterminesError(a: SwiftPolyglotError, b: SwiftPolyglotError)
    requires ErrorDescription(a) == ErrorDescription(b)
    ensures a == b
  {
    assert MissingTranslationsText[0] == 'E';
    assert UsageText[0] == 'U';
    if a.UnsupportedVariation? {
      VariationKeyRecoverable(a.variation);
    }
    if b.UnsupportedVariation? {
      VariationKeyRecoverable(b.variation);
    }
  }

  lemma VariationKeyRecoverable(v: string)
    ensures var t := ErrorDescription(UnsupportedVariation(v)).value;
      t[0] == 'V' &&
      |t| == |VariationPrefix| + |VariationSuffix| + 2 + |v| &&
      t[|VariationPrefix| + 1..|t| - |VariationSuffix| - 1] == v
  {
    var t := VariationPrefix + Quote(v) + VariationSuffix;
    assert t[|VariationPrefix| + 1..|t| - |VariationSuffix| - 1] == v;
  }
}
