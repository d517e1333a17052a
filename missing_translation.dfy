/** One detected gap in a String Catalog, and the line that reports it. */
module Findings {
  import opened Text

  /** The five kinds of gap. Three name one language; the plural and device
      kinds also name the plural form or the device. */
  datatype Category =
    | DeviceMissingOrNotTranslated(device: string, language: string)
    | MissingOrNotTranslated(language: string)
    | MissingTranslationForLanguage(language: string)
    | MissingTranslationForAllLanguages
    | PluralMissingOrNotTranslated(pluralForm: string, language: string)

  datatype MissingTranslation = MissingTranslation(category: Category, filePath: string, originalString: string)

  /** Every message ends with this. */
  function InFile(filePath: string): string {
    " in file: " + filePath
  }

  /** `lead` followed by the quoted language. */
  function LanguageDetail(lead: string, language: string): (d: string)
    ensures HasSuffix(d, Quote(language)) && d[..|d| - |Quote(language)|] == lead
  {
    var d := lead + Quote(language);
    assert d[..|lead|] == lead && d[|lead|..] == Quote(language);
    d
  }

  /** The part of a message between the quoted original string and the
      file. */
  function Detail(c: Category): string {
    match c
    case DeviceMissingOrNotTranslated(device, language) =>
      LanguageDetail(" device " + Quote(device) + " is missing or not translated in ", language)
    case MissingOrNotTranslated(language) =>
      LanguageDetail(" is missing or not translated in ", language)
    case MissingTranslationForLanguage(language) =>
      LanguageDetail(" is missing translations for language ", language)
    case MissingTranslationForAllLanguages =>
      " is not translated in any language"
    case PluralMissingOrNotTranslated(pluralForm, language) =>
      LanguageDetail(" plural form " + Quote(pluralForm) + " is missing or not translated in ", language)
  }

  /** The all-languages text quotes nothing. */
  lemma AllLanguagesDetailQuotesNothing()
    ensures '\'' !in Detail(MissingTranslationForAllLanguages)
  {
  }

  /** Every other text ends with its quoted language. */
  lemma DetailEndsWithLanguage(c: Category)
    requires !c.MissingTranslationForAllLanguages?
    ensures HasSuffix(Detail(c), Quote(c.language))
  {
  }

  /** The two single-language texts quote nothing before the language. */
  lemma SingleLanguageDetailQuotesOnlyLanguage(c: Category)
    requires c.MissingOrNotTranslated? || c.MissingTranslationForLanguage?
    ensures |Quote(c.language)| <= |Detail(c)|
    ensures '\'' !in Detail(c)[..|Detail(c)| - |Quote(c.language)|]
  {
    var lead := if c.MissingOrNotTranslated? then " is missing or not translated in "
      else " is missing translations for language ";
    assert Detail(c) == LanguageDetail(lead, c.language);
    assert forall k :: 0 <= k < |lead| ==> lead[k] != '\'';
  }

  /** The plural text quotes its form, and the device text its device,
      before the language. */
  lemma FormDetailQuotesForm(c: Category)
    requires c.PluralMissingOrNotTranslated? || c.DeviceMissingOrNotTranslated?
    ensures |Quote(c.language)| <= |Detail(c)|
    ensures c.PluralMissingOrNotTranslated? ==> Contains(Detail(c)[..|Detail(c)| - |Quote(c.language)|], Quote(c.pluralForm))
    ensures c.DeviceMissingOrNotTranslated? ==> Contains(Detail(c)[..|Detail(c)| - |Quote(c.language)|], Quote(c.device))
  {
    if c.PluralMissingOrNotTranslated? {
      ContainsMiddle(" plural form ", Quote(c.pluralForm), " is missing or not translated in ");
    } else {
      ContainsMiddle(" device ", Quote(c.device), " is missing or not translated in ");
    }
  }

  /** The human-readable report of a finding: the quoted original string,
      then the category's detail, then the file. */
  function Message(m: MissingTranslation): (text: string)
    ensures HasPrefix(text, Quote(m.originalString))
    ensures HasSuffix(text, InFile(m.filePath))
    ensures |Quote(m.originalString)| + |InFile(m.filePath)| <= |text|
    ensures text[|Quote(m.originalString)|..|text| - |InFile(m.filePath)|] == Detail(m.category)
  {
    var q := Quote(m.originalString);
    var d := Detail(m.category);
    var f := InFile(m.filePath);
    var text := q + d + f;
    assert text[..|q|] == q;
    assert text[|text| - |f|..] == f;
    assert text[|q|..|text| - |f|] == d;
    text
  }

  /** Every message starts with the quote of its original string. */
  lemma MessageStartsWithQuote(m: MissingTranslation)
    ensures |Message(m)| > 0 && Message(m)[0] == '\''
  {
    var quoted := Quote(m.originalString);
    assert Message(m)[0] == Message(m)[..|quoted|][0] == quoted[0];
  }
}
