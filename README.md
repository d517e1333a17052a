# SwiftPolyglot, modelled in Dafny

SwiftPolyglot checks Xcode String Catalogs (`.xcstrings` JSON files) for
missing translations. It takes a list of file paths and a list of language
codes, reads every path that ends in `.xcstrings`, and prints one line per
gap. In the current revision (`SwiftPolyglotCore`) a gap is:

- a string without a `localizations` object of objects;
- a requested language that is absent from it;
- for a language whose `variations` can be read as an object of objects of
  objects: a `plural` form or `device` whose `stringUnit.state` is not
  `"translated"` (a missing unit or state counts as not translated);
- for any other language: a `stringUnit.state` that is a string other than
  `"translated"` (a missing unit or a state that is not a string is no gap).

In the two earlier revisions variations are never read, and a requested
language is a gap unless it is present with a `stringUnit.state` of exactly
`"translated"`.

For each gap it prints either the plain message or a GitHub Actions
annotation (`::warning file=…::` or `::error file=…::`). It ends with
"Completed with missing translations." or "All translations are present.".
It throws `missingTranslations` instead when gaps were found and errors were
requested. The current revision throws `unsupportedVariation` for a
variation key other than `plural` or `device`, once `variations` has been
read in that nested shape.

This project models three revisions of the checker:

- **`SwiftPolyglotCore`**, the current one (`Sources/SwiftPolyglotCore/SwiftPolyglotCore.swift`,
  `MissingTranslation.swift`, `SwiftPolyglotError.swift`). Modules:
  - `Core` holds the struct as a datatype. Its loops are methods, each
    proved equal to a specification function from `Analysis`.
  - `Analysis` holds those functions and the properties proved about them.
  - `RunProperties` holds the properties of a whole run.
  - `Findings` models the finding type and its message.
  - `PolyglotErrors` models the error type.
- **The earlier `SwiftPolyglot` struct** (`Sources/SwiftPolyglotCore/SwiftPolyglot.swift`),
  in module `LegacyCore`. Its nested functions share a captured
  `missingTranslations` flag and the printed output. They become the methods
  of class `Checker`, which has those two as fields.
- **The original script** (`Sources/SwiftPolyglot/main.swift`), in module
  `LegacyScript`, as class `Script` over the script's globals.

The two earlier revisions share one classification rule, `LegacyRules`.
That rule ignores variations, with a single stringUnit per language, and
lemmas there compare it with the current rule. The shared substrate is:

- `Json`: parsed JSON and the `as?` casts;
- `Catalog`: the catalog's shape;
- `Text`: `hasSuffix`, `split(separator:)` and quoting.

How the model represents the outside world:

- Reading a file (`Data(contentsOf:)` followed by
  `JSONSerialization.jsonObject`) is a function `FileSystem` from a path to
  the parsed document, or to `None` when the file cannot be read or parsed.
- A Swift dictionary is a sequence of key/value pairs. Its iteration order
  is part of the input, because Swift leaves it unspecified. The lemmas
  about order show which results do not depend on it.
- What a run prints is a sequence of lines. How it ends is a `Result`, an
  exit status, or both.

## Model

| member | source | states |
|---|---|---|
| `Text.Split` | Sources/SwiftPolyglotCore/SwiftPolyglot.swift:17 | every piece of `split(separator:)` is non-empty and free of the separator (empty subsequences are omitted) |
| `Text.SplitNoSeparator` | Sources/SwiftPolyglotCore/SwiftPolyglot.swift:17 | the empty string has no piece, and a non-empty string without the separator is one piece, itself |
| `Text.SplitAtSeparator` | Sources/SwiftPolyglotCore/SwiftPolyglot.swift:17 | `split` cuts at every separator: the pieces of `a + [sep] + b` are those of `a` followed by those of `b`; with `SplitNoSeparator` this fixes the pieces of every input |
| `Text.SplitKeepsOtherCharacters` | Sources/SwiftPolyglotCore/SwiftPolyglot.swift:17 | the pieces, concatenated, are the argument with every separator removed: no other character is lost or reordered |
| `Text.SplitJoin` | Sources/SwiftPolyglotCore/SwiftPolyglot.swift:17 | splitting a comma-joined list of non-empty, comma-free codes gives back exactly that list |
| `Text.SplitExample` | Sources/SwiftPolyglot/main.swift:8 | a leading separator, a run of separators and a trailing separator all produce no piece: ",de,,en," gives ["de", "en"] |
| `Json.Get` | Sources/SwiftPolyglotCore/SwiftPolyglotCore.swift:104 | the dictionary subscript is nil exactly when no entry has the key; otherwise its value is that of an entry with the key |
| `Json.GetDistinct` | Sources/SwiftPolyglotCore/SwiftPolyglotCore.swift:104 | with distinct keys, the subscript of an entry's key returns that entry's value |
| `Json.Dicts` | Sources/SwiftPolyglotCore/SwiftPolyglotCore.swift:70 | the cast to `[String: [String: Any]]` succeeds exactly when every member is an object, and then keeps every key, in order, with its object |
| `Json.DictsOfDicts` | Sources/SwiftPolyglotCore/SwiftPolyglotCore.swift:116 | the cast to `[String: [String: [String: Any]]]` succeeds exactly when every member is an object of objects, and then keeps every key and its contents |
| `Catalog.CouldNotProcessLine` | Sources/SwiftPolyglotCore/SwiftPolyglotCore.swift:72-76 | outside a GitHub Action the line is exactly "Could not process file at path: " and the path; inside one it is that text behind the warning annotation for the path (prefix, suffix and length fixed) |
| `Catalog.NonObjectEntryRejectsFile` | Sources/SwiftPolyglotCore/SwiftPolyglotCore.swift:70 | one entry of `strings` that is not an object makes the whole file unprocessable |
| `Catalog.CatalogStrings` | Sources/SwiftPolyglotCore/SwiftPolyglotCore.swift:66-71 | definition: the file's `strings` member cast to `[String: [String: Any]]`, or nothing when the file cannot be read, is not a JSON object, or fails the cast |
| `Catalog.Localizations` | Sources/SwiftPolyglotCore/SwiftPolyglotCore.swift:91 | definition: `translations["localizations"] as? [String: [String: Any]]` |
| `Catalog.UnitState` | Sources/SwiftPolyglotCore/SwiftPolyglotCore.swift:127-128 | definition: `stringUnit` cast to an object, then its `state` cast to a string |
| `Findings.Message` | Sources/SwiftPolyglotCore/MissingTranslation.swift:15-30 | every message consists of the quoted original string, then the category's detail, then " in file: " and the path |
| `Findings.MessageStartsWithQuote` | Sources/SwiftPolyglotCore/MissingTranslation.swift:18-27 | every message starts with a single quote |
| `Findings.AllLanguagesDetailQuotesNothing` | Sources/SwiftPolyglotCore/MissingTranslation.swift:24-25 | the all-languages message quotes nothing but the original string |
| `Findings.DetailEndsWithLanguage` | Sources/SwiftPolyglotCore/MissingTranslation.swift:18-27 | each of the four single-language categories names its language last, quoted |
| `Findings.SingleLanguageDetailQuotesOnlyLanguage` | Sources/SwiftPolyglotCore/MissingTranslation.swift:20-23 | the missing-language and not-translated messages quote nothing between the original string and the language |
| `Findings.FormDetailQuotesForm` | Sources/SwiftPolyglotCore/MissingTranslation.swift:18-27 | the plural message quotes its plural form, and the device message its device, before the language |
| `PolyglotErrors.ErrorDescription` | Sources/SwiftPolyglotCore/SwiftPolyglotError.swift:10-18 | every error has a description: the missing-translations text, the usage text, or a text quoting the variation key |
| `PolyglotErrors.DescriptionDeterminesError` | Sources/SwiftPolyglotCore/SwiftPolyglotError.swift:10-18 | two errors with the same description are the same error |
| `PolyglotErrors.VariationKeyRecoverable` | Sources/SwiftPolyglotCore/SwiftPolyglotError.swift:16-17 | the variation key can be cut back out of the unsupported-variation description at fixed offsets |
| `Analysis.CollectStopsAtFirstError` | Sources/SwiftPolyglotCore/SwiftPolyglotCore.swift:117-125 | a walk that lets a `throw` escape ends with the error of its first failing step |
| `Analysis.CollectAppend` | Sources/SwiftPolyglotCore/SwiftPolyglotCore.swift:88-142 | the findings for a concatenated sequence are those for the first part followed by those for the second |
| `Analysis.CollectPermutation` | Sources/SwiftPolyglotCore/SwiftPolyglotCore.swift:90 | walking the same elements in another order gives the same findings as a multiset, and fails exactly when the first order fails |
| `Analysis.CollectMembers` | Sources/SwiftPolyglotCore/SwiftPolyglotCore.swift:88-142 | every finding of a walk comes from one of its steps |
| `Analysis.FormFindings` | Sources/SwiftPolyglotCore/SwiftPolyglotCore.swift:155-189 | definition: one finding per form, in order, whose unit is not "translated" |
| `Analysis.VariationFindings` | Sources/SwiftPolyglotCore/SwiftPolyglotCore.swift:153-196 | definition: the forms of each "plural" or "device" variation in order, stopping with the error for the first other key |
| `Analysis.UnitFindings` | Sources/SwiftPolyglotCore/SwiftPolyglotCore.swift:126-138 | definition: one not-translated finding when the unit's state is a string other than "translated", none otherwise |
| `Analysis.LanguageFindings` | Sources/SwiftPolyglotCore/SwiftPolyglotCore.swift:104-138 | definition: the missing-language finding, the variations' findings, or the unit's, for one language |
| `Analysis.LanguagesFindings` | Sources/SwiftPolyglotCore/SwiftPolyglotCore.swift:103-139 | definition: the requested languages of one string, in the order requested |
| `Analysis.StringFindings` | Sources/SwiftPolyglotCore/SwiftPolyglotCore.swift:90-139 | definition: the all-languages finding without localizations, the requested languages' otherwise |
| `Analysis.FileFindings` | Sources/SwiftPolyglotCore/SwiftPolyglotCore.swift:84-143 | definition: all strings of a catalog in dictionary order, stopping at the first error |
| `Analysis.FormFindingsMembers` | Sources/SwiftPolyglotCore/SwiftPolyglotCore.swift:155-171 | a finding is reported for forms exactly when it names a form that is not translated (a missing stringUnit or state counts as not translated), with the walk's language, string and file |
| `Analysis.FormFindingsCount` | Sources/SwiftPolyglotCore/SwiftPolyglotCore.swift:173-189 | with distinct form keys, each untranslated form is reported exactly once, and a translated or absent form never |
| `Analysis.FormFindingsEmpty` | Sources/SwiftPolyglotCore/SwiftPolyglotCore.swift:155-189 | a form walk finds nothing exactly when every form is translated |
| `Analysis.VariationFindingsOutcome` | Sources/SwiftPolyglotCore/SwiftPolyglotCore.swift:153-196 | the variation walk throws exactly when some key is neither "plural" nor "device", with the first such key; otherwise it reports only plural and device gaps of its language, string and file |
| `Analysis.VariationFindingsEmpty` | Sources/SwiftPolyglotCore/SwiftPolyglotCore.swift:153-196 | the variation walk finds nothing and throws nothing exactly when every key is supported and every form translated |
| `Analysis.LanguageFindingsShape` | Sources/SwiftPolyglotCore/SwiftPolyglotCore.swift:103-139 | an absent language gives exactly the one missing-language finding; every finding for a language names that language and is missing-language exactly when the language is absent |
| `Analysis.StringUnitFindings` | Sources/SwiftPolyglotCore/SwiftPolyglotCore.swift:126-138 | without usable variations, a missing unit or state gives no finding, a string state gives one not-translated finding exactly when it is not "translated" |
| `Analysis.LanguagesInRequestOrder` | Sources/SwiftPolyglotCore/SwiftPolyglotCore.swift:103 | the findings for the first requested languages come before those for the later ones |
| `Analysis.MissingLanguageCount` | Sources/SwiftPolyglotCore/SwiftPolyglotCore.swift:103-114 | an absent language is reported missing once per time it is requested; a present language never |
| `Analysis.LanguagesFindingsShape` | Sources/SwiftPolyglotCore/SwiftPolyglotCore.swift:103-139 | every finding for a string with localizations names a requested language and is never the all-languages finding |
| `Analysis.AllLanguagesFinding` | Sources/SwiftPolyglotCore/SwiftPolyglotCore.swift:91-101 | a string without a localizations object of objects gets exactly the all-languages finding; any other string never gets it |
| `Analysis.AllLanguagesCount` | Sources/SwiftPolyglotCore/SwiftPolyglotCore.swift:90-101 | in a catalog with distinct keys, a string is reported untranslated in all languages exactly once if it lacks localizations, never otherwise |
| `Analysis.LanguageErrorIsUnsupportedVariation` | Sources/SwiftPolyglotCore/SwiftPolyglotCore.swift:116-125 | the only error one language can throw is an unsupported variation |
| `Analysis.StringErrorIsUnsupportedVariation` | Sources/SwiftPolyglotCore/SwiftPolyglotCore.swift:90-139 | the only error one string can throw is an unsupported variation |
| `Analysis.FileErrorIsUnsupportedVariation` | Sources/SwiftPolyglotCore/SwiftPolyglotCore.swift:84-143 | the only error a catalog walk can throw is an unsupported variation |
| `Analysis.StringOrderIrrelevant` | Sources/SwiftPolyglotCore/SwiftPolyglotCore.swift:90 | the dictionary order of the strings changes neither whether the walk throws nor its findings as a multiset |
| `Analysis.LanguageEmptyIffComplete` | Sources/SwiftPolyglotCore/SwiftPolyglotCore.swift:103-139 | a language gives no finding and no error exactly when it is present and complete |
| `Analysis.StringEmptyIffComplete` | Sources/SwiftPolyglotCore/SwiftPolyglotCore.swift:90-139 | a string gives no finding and no error exactly when it has localizations and every requested language is complete |
| `Analysis.FileEmptyIffComplete` | Sources/SwiftPolyglotCore/SwiftPolyglotCore.swift:84-143 | a catalog gives no finding and no error exactly when every string in it is complete |
| `Core.VerdictLine` | Sources/SwiftPolyglotCore/SwiftPolyglotCore.swift:58-62 | the final line is "Completed with missing translations." exactly for that verdict, and "All translations are present." for the other |
| `Core.SwiftPolyglotCore.GetStringCatalogURLs` | Sources/SwiftPolyglotCore/SwiftPolyglotCore.swift:198-204 | exactly the paths ending in ".xcstrings" are kept, each as often as given |
| `Core.SwiftPolyglotCore.CatalogURLsInOrder` | Sources/SwiftPolyglotCore/SwiftPolyglotCore.swift:198-204 | the kept paths keep their order |
| `Core.SwiftPolyglotCore.ExtractStrings` | Sources/SwiftPolyglotCore/SwiftPolyglotCore.swift:65-82 | either the catalog's strings and nothing printed, or no strings and exactly the could-not-process line |
| `Core.SwiftPolyglotCore.GetMissingTranslationsFromVariations` | Sources/SwiftPolyglotCore/SwiftPolyglotCore.swift:145-196 | the loop returns the variation walk's findings, or throws its error |
| `Core.SwiftPolyglotCore.GetMissingTranslationsForLanguage` | Sources/SwiftPolyglotCore/SwiftPolyglotCore.swift:104-138 | one iteration of the language loop returns what that language contributes |
| `Core.SwiftPolyglotCore.GetMissingTranslationsFromForms` | Sources/SwiftPolyglotCore/SwiftPolyglotCore.swift:155-171 | the forms loop returns one finding per untranslated form, in order |
| `Core.SwiftPolyglotCore.GetMissingTranslations` | Sources/SwiftPolyglotCore/SwiftPolyglotCore.swift:84-143 | the nested loops return the catalog walk's findings, or throw its error |
| `Core.SwiftPolyglotCore.LogForGitHubAction` | Sources/SwiftPolyglotCore/SwiftPolyglotCore.swift:206-212 | the line is exactly the annotation tag and the message: it starts with the error tag exactly when logging with error and with the warning tag otherwise, ends with the message, and has the length of the two together |
| `Core.SwiftPolyglotCore.RenderFinding` | Sources/SwiftPolyglotCore/SwiftPolyglotCore.swift:34-43 | outside a GitHub Action the line is exactly the message; inside one it is exactly `logForGitHubAction` of the finding with the error setting, so an annotation that is an error one exactly when errors are requested |
| `Core.SwiftPolyglotCore.RenderFindings` | Sources/SwiftPolyglotCore/SwiftPolyglotCore.swift:34-45 | one printed line per finding, in order |
| `Core.SwiftPolyglotCore.CatalogReport` | Sources/SwiftPolyglotCore/SwiftPolyglotCore.swift:26-48 | definition: one catalog's child task: extract, walk, print one line per finding, return the findings or the error |
| `Core.SwiftPolyglotCore.Aggregate` | Sources/SwiftPolyglotCore/SwiftPolyglotCore.swift:24-54 | definition: the catalogs' tasks awaited in order, concatenating their findings and stopping at the first error |
| `Core.SwiftPolyglotCore.RunSpec` | Sources/SwiftPolyglotCore/SwiftPolyglotCore.swift:21-63 | definition: what `run` prints, and whether it returns a verdict or throws |
| `Core.SwiftPolyglotCore.Run` | Sources/SwiftPolyglotCore/SwiftPolyglotCore.swift:21-63 | the run prints and returns or throws exactly what its specification `RunSpec` says |
| `RunProperties.CatalogReportScan` | Sources/SwiftPolyglotCore/SwiftPolyglotCore.swift:26-48 | one catalog's child task returns the walk of the strings that `extractStrings` gives |
| `RunProperties.AggregateScan` | Sources/SwiftPolyglotCore/SwiftPolyglotCore.swift:51-53 | the merged findings are the per-file lists concatenated, nothing dropped or deduplicated, and the first error is the run's |
| `RunProperties.AggregateInOrder` | Sources/SwiftPolyglotCore/SwiftPolyglotCore.swift:24-54 | the files of `front + back` print and find what those of `front` do, followed by those of `back` |
| `RunProperties.AllFindingsErrorIsUnsupportedVariation` | Sources/SwiftPolyglotCore/SwiftPolyglotCore.swift:24-54 | the task group can only rethrow an unsupported variation |
| `RunProperties.Verdict` | Sources/SwiftPolyglotCore/SwiftPolyglotCore.swift:56-62 | throws missingTranslations exactly when there are findings and errors are requested; completes with missing translations exactly when there are findings and errors are not requested; passes exactly when there are no findings and no error |
| `RunProperties.VerdictPrintedLast` | Sources/SwiftPolyglotCore/SwiftPolyglotCore.swift:58-62 | a run that returns prints its verdict as the last line |
| `RunProperties.CatalogReportPrintsFindings` | Sources/SwiftPolyglotCore/SwiftPolyglotCore.swift:34-45 | one catalog's child task prints the line of every finding it returns |
| `RunProperties.AggregatePrintsFindings` | Sources/SwiftPolyglotCore/SwiftPolyglotCore.swift:24-54 | the tasks print the line of every finding they return |
| `RunProperties.FindingsPrinted` | Sources/SwiftPolyglotCore/SwiftPolyglotCore.swift:21-63 | when no unsupported variation is thrown, the line of every finding is printed, also when missingTranslations is thrown; a run that returns prints them all before its verdict line |
| `RunProperties.PassIffComplete` | Sources/SwiftPolyglotCore/SwiftPolyglotCore.swift:21-63 | a run reports all translations present exactly when every catalog given is complete |
| `RunProperties.GapsThrowWithFlag` | Sources/SwiftPolyglotCore/SwiftPolyglotCore.swift:56-57 | with errors requested, one incomplete catalog makes the run throw missingTranslations |
| `RunProperties.FirstUnsupportedVariationEndsRun` | Sources/SwiftPolyglotCore/SwiftPolyglotCore.swift:51-53 | the run throws the unsupported variation of the first catalog that has one |
| `RunProperties.UnprocessableFileContributesNothing` | Sources/SwiftPolyglotCore/SwiftPolyglotCore.swift:65-82 | an unprocessable file prints only the could-not-process line and finds nothing |
| `RunProperties.AggregateReadsOnly` | Sources/SwiftPolyglotCore/SwiftPolyglotCore.swift:24-54 | the tasks depend only on the contents of the files they are given |
| `RunProperties.OnlyCatalogsAreRead` | Sources/SwiftPolyglotCore/SwiftPolyglotCore.swift:22 | a run depends on no file but the given `.xcstrings` paths |
| `RunProperties.FileOrderIrrelevant` | Sources/SwiftPolyglotCore/SwiftPolyglotCore.swift:24-54 | reordering the paths keeps the findings as a multiset and the verdict, and keeps whether an unsupported variation is thrown |
| `RunProperties.HelloMissingGerman` | Sources/SwiftPolyglotCore/SwiftPolyglotCore.swift:103-114 | a string translated only into "en", checked for "en" and "de", gives exactly one missing-language finding for "de" and completes with missing translations |
| `RunProperties.OnePendingPluralForm` | Sources/SwiftPolyglotCore/SwiftPolyglotCore.swift:154-171 | of three plural forms, only the pending one is reported |
| `RunProperties.OrdinalVariationThrows` | Sources/SwiftPolyglotCore/SwiftPolyglotCore.swift:190-192 | an "ordinal" variation throws unsupportedVariation("ordinal") |
| `LegacyRules.WarningMessage` | Sources/SwiftPolyglotCore/SwiftPolyglot.swift:39-55 | each earlier message is the quoted string, then " is not translated in any language" or " is missing or not translated in " and the unquoted language, then " in file: " and the path (prefix, suffix and length fixed) |
| `LegacyRules.LegacyTranslated` | Sources/SwiftPolyglotCore/SwiftPolyglot.swift:47-49 | definition: the language is present, its `stringUnit` is an object, and its `state` is the string "translated" |
| `LegacyRules.LanguageWarnings` | Sources/SwiftPolyglotCore/SwiftPolyglot.swift:46-55 | definition: one warning per requested language that fails the test, in order |
| `LegacyRules.StringWarnings` | Sources/SwiftPolyglotCore/SwiftPolyglot.swift:40-55 | definition: the all-languages warning without localizations, the languages' warnings otherwise |
| `LegacyRules.CatalogWarnings` | Sources/SwiftPolyglotCore/SwiftPolyglot.swift:39-56 | definition: the warnings of all strings, in dictionary order |
| `LegacyRules.FileWarnings` | Sources/SwiftPolyglotCore/SwiftPolyglot.swift:26-56 | definition: no warning for a file that cannot be processed, its strings' warnings otherwise |
| `LegacyRules.LanguageCodes` | Sources/SwiftPolyglotCore/SwiftPolyglot.swift:17 | the language codes are non-empty, comma-free, and together are the argument without its commas; the argument is cut at every comma, and an argument without commas is one code |
| `LegacyRules.LegacyFlaggedIff` | Sources/SwiftPolyglotCore/SwiftPolyglot.swift:47-54 | a language is flagged exactly when it is absent, has no stringUnit object, no string state, or a state other than "translated" |
| `LegacyRules.LanguageWarningCount` | Sources/SwiftPolyglotCore/SwiftPolyglot.swift:46-55 | a flagged language warns once per time it is requested, an unflagged one never, and every warning is about a requested language |
| `LegacyRules.NotTranslatedInAnyLanguageIff` | Sources/SwiftPolyglotCore/SwiftPolyglot.swift:40-44 | a string without localizations gets exactly the all-languages warning; any other string never gets it |
| `LegacyRules.CatalogWarningsInOrder` | Sources/SwiftPolyglotCore/SwiftPolyglot.swift:39-56 | the warnings for concatenated strings are those of the first part followed by those of the second |
| `LegacyRules.StringNoWarningsIff` | Sources/SwiftPolyglotCore/SwiftPolyglot.swift:39-56 | a string raises no warning exactly when it has localizations and every requested language is translated |
| `LegacyRules.NoWarningsIff` | Sources/SwiftPolyglotCore/SwiftPolyglot.swift:39-56 | a catalog raises no warning exactly when every string in it raises none |
| `LegacyRules.AllLanguagesAgree` | Sources/SwiftPolyglotCore/SwiftPolyglot.swift:40-44 | a string without localizations gets exactly the all-languages warning from the earlier rule and exactly the all-languages finding from the current one |
| `LegacyRules.StricterWithoutVariations` | Sources/SwiftPolyglotCore/SwiftPolyglot.swift:46-55 | for a language without variations, any gap the current rule reports is also flagged by the earlier rule |
| `LegacyRules.MissingUnitFlaggedOnlyByLegacy` | Sources/SwiftPolyglotCore/SwiftPolyglot.swift:47-49 | a language entry without a stringUnit is flagged by the earlier rule and passes the current one |
| `LegacyRules.PendingPluralFlaggedOnlyByCore` | Sources/SwiftPolyglotCore/SwiftPolyglot.swift:47-49 | a translated unit next to a pending plural form passes the earlier rule and is a gap for the current one |
| `LegacyCore.WarningLine` | Sources/SwiftPolyglotCore/SwiftPolyglot.swift:70-80 | outside GitHub Actions the message itself; inside, exactly the error tag and the message when "--errorOnMissing" is given, the warning tag and the message otherwise (prefix, suffix and length fixed) |
| `LegacyCore.AnyWarnings` | Sources/SwiftPolyglotCore/SwiftPolyglot.swift:59-68 | the flag is set exactly when some enumerated `.xcstrings` entry raises a warning |
| `LegacyCore.CheckLines` | Sources/SwiftPolyglotCore/SwiftPolyglot.swift:25-57 | definition: what `checkTranslations` prints for one file: the could-not-process line, or one line per warning |
| `LegacyCore.SearchLines` | Sources/SwiftPolyglotCore/SwiftPolyglot.swift:59-68 | definition: what `searchDirectory` prints: the lines of every `.xcstrings` entry, in enumeration order |
| `LegacyCore.RunSpec` | Sources/SwiftPolyglotCore/SwiftPolyglot.swift:10-92 | definition: the usage line and exit 1 without arguments; otherwise the search's lines and the verdict line, with exit 1 exactly when a warning was raised and "--errorOnMissing" was given |
| `LegacyCore.Checker.constructor` | Sources/SwiftPolyglotCore/SwiftPolyglot.swift:16-23 | the settings are fixed, the flag is false and nothing is printed |
| `LegacyCore.Checker.LogWarning` | Sources/SwiftPolyglotCore/SwiftPolyglot.swift:70-80 | prints exactly one warning line and leaves the flag alone |
| `LegacyCore.Checker.CheckTranslations` | Sources/SwiftPolyglotCore/SwiftPolyglot.swift:25-57 | prints the file's lines and sets the flag exactly when the file raises a warning |
| `LegacyCore.Checker.CheckString` | Sources/SwiftPolyglotCore/SwiftPolyglot.swift:40-55 | prints one line per warning of the string and sets the flag exactly when there is one |
| `LegacyCore.Checker.CheckLanguages` | Sources/SwiftPolyglotCore/SwiftPolyglot.swift:46-55 | prints one line per flagged requested language, in order, and sets the flag exactly when there is one |
| `LegacyCore.Checker.CheckLanguage` | Sources/SwiftPolyglotCore/SwiftPolyglot.swift:47-54 | prints a line and sets the flag exactly when the language is flagged |
| `LegacyCore.Checker.SearchDirectory` | Sources/SwiftPolyglotCore/SwiftPolyglot.swift:59-68 | prints the lines of every enumerated `.xcstrings` entry in order and sets the flag exactly when one raises a warning |
| `LegacyCore.Run` | Sources/SwiftPolyglotCore/SwiftPolyglot.swift:10-92 | prints and exits exactly as its specification `RunSpec` says |
| `LegacyCore.UsageWithoutArguments` | Sources/SwiftPolyglotCore/SwiftPolyglot.swift:11-14 | without arguments only the usage line is printed, and the exit status is 1 |
| `LegacyCore.ExitStatus` | Sources/SwiftPolyglotCore/SwiftPolyglot.swift:84-91 | exit status 1 exactly when a checked file warned and "--errorOnMissing" was given; the last line says all present exactly when none warned |
| `LegacyCore.SearchReadsOnlyCatalogs` | Sources/SwiftPolyglotCore/SwiftPolyglot.swift:59-68 | the search depends only on the `.xcstrings` entries' contents |
| `LegacyCore.OnlyCatalogsAreRead` | Sources/SwiftPolyglotCore/SwiftPolyglot.swift:82-91 | the whole run depends only on the `.xcstrings` entries of the current directory |
| `LegacyCore.OneLinePerWarning` | Sources/SwiftPolyglotCore/SwiftPolyglot.swift:41-53 | the k-th printed line of a file is the k-th warning rendered through `logWarning` |
| `LegacyScript.ScriptWarningLine` | Sources/SwiftPolyglot/main.swift:28-39 | the script's line is "Warning: " followed by the earlier message about the file's absolute URL |
| `LegacyScript.ScriptWarningNamesAbsoluteURL` | Sources/SwiftPolyglot/main.swift:39 | each warning line ends with " in file: file://" and the file's path |
| `LegacyScript.ScriptCouldNotProcessLine` | Sources/SwiftPolyglot/main.swift:22 | definition: "Could not process file: " and the path, never an annotation |
| `LegacyScript.AbsoluteString` | Sources/SwiftPolyglot/main.swift:28 | definition: the `file://` URL of a path |
| `LegacyScript.ScriptCheckLines` | Sources/SwiftPolyglot/main.swift:16-44 | definition: what the script's `checkTranslations` prints for one file |
| `LegacyScript.ScriptSearchLines` | Sources/SwiftPolyglot/main.swift:46-55 | definition: what the script's `searchDirectory` prints |
| `LegacyScript.ScriptSpec` | Sources/SwiftPolyglot/main.swift:3-66 | definition: the usage line and exit 1 with no argument after the program name; otherwise the search's lines and the verdict line |
| `LegacyScript.Script.constructor` | Sources/SwiftPolyglot/main.swift:8-14 | the languages are fixed, the flag is false and nothing is printed |
| `LegacyScript.Script.CheckTranslations` | Sources/SwiftPolyglot/main.swift:16-44 | prints the file's lines and sets the flag exactly when the file raises a warning |
| `LegacyScript.Script.CheckString` | Sources/SwiftPolyglot/main.swift:26-43 | prints one line per warning of the string and sets the flag exactly when there is one |
| `LegacyScript.Script.CheckLanguages` | Sources/SwiftPolyglot/main.swift:33-42 | prints one line per flagged requested language, in order, and sets the flag exactly when there is one |
| `LegacyScript.Script.CheckLanguage` | Sources/SwiftPolyglot/main.swift:34-41 | prints a line and sets the flag exactly when the language is flagged |
| `LegacyScript.Script.SearchDirectory` | Sources/SwiftPolyglot/main.swift:46-55 | prints the lines of every enumerated `.xcstrings` entry in order and sets the flag exactly when one raises a warning |
| `LegacyScript.RunScript` | Sources/SwiftPolyglot/main.swift:3-66 | prints and exits exactly as its specification `ScriptSpec` says |
| `LegacyScript.ScriptUsage` | Sources/SwiftPolyglot/main.swift:3-6 | with no argument after the program name only the usage line is printed, and the exit status is 1 |
| `LegacyScript.ScriptExitStatus` | Sources/SwiftPolyglot/main.swift:59-66 | exit status 1 exactly when a checked file warned and "--errorOnMissing" was given; the last line says all present exactly when none warned |
| `LegacyScript.SameVerdictAsRun` | Sources/SwiftPolyglot/main.swift:57-66 | the script and the struct that replaced it, given the same arguments after the program name (a program name other than "--errorOnMissing"), exit alike, print as many lines, and end with the same line |
| `LegacyScript.SameLineCount` | Sources/SwiftPolyglot/main.swift:16-55 | the script and the struct print the same number of lines for the same directory |
| `LegacyScript.ScriptReadsOnlyCatalogs` | Sources/SwiftPolyglot/main.swift:46-55 | the script's search depends only on the `.xcstrings` entries' contents |

## Left out

- File I/O is not modelled. `Data(contentsOf:)` and `JSONSerialization` become the `FileSystem` function. A read error and a parse error both become `None`, and JSON numbers, booleans, arrays and null are one opaque value.
- The current revision's task group is modelled as a sequential fold in the order of the paths. The interleaving of the tasks' output is not modelled. Neither are lines printed by tasks still running after one has thrown. `RunProperties.FileOrderIrrelevant` shows that the findings, as a multiset, do not depend on that order. Neither does the verdict, except for which unsupported variation is thrown.
- An unsupported variation: a task's error is rethrown by `taskGroup.reduce` and ends `run`, as `SwiftPolyglotCore.swift:32,51` does. The model does not let the other catalogs finish their checks after it.
- Strings are compared as sequences of Unicode scalar values. Swift compares `String` and `Character` by canonical equivalence over grapheme clusters. So the model differs from Swift in `split(separator:)` when a comma starts a cluster (for example a comma followed by a combining accent), and in dictionary lookups whose keys are spelled in different normal forms.
- A JSON object is assumed to have distinct keys, as the Swift dictionary built from it does. With a repeated key, `Json.Get` returns the first member that has it, while the walks over `strings`, `variations` and forms visit every member, so a repeated key is checked twice. The counting lemmas (`FormFindingsCount`, `AllLanguagesCount`) require distinct keys.
- `SwiftPolyglotError.noLanguageCodes`: no modelled function throws it, because nothing in the core throws it. Only its description is modelled.
- A `URL` is represented by its path.
  - `URL(fileURLWithPath:).appendingPathComponent` becomes `dir + "/" + file`.
  - `absoluteString` becomes `"file://" + path`.
  - Percent-encoding, path standardisation and symbolic links are not modelled.
- `FileManager.enumerator(atPath:)` becomes the sequence of relative entry paths it yields. A nil enumerator is the empty sequence. Which entries exist is an input.
- `ProcessInfo.processInfo.environment["GITHUB_ACTIONS"] == "true"` becomes a boolean parameter. So do `currentDirectoryPath` and `CommandLine.arguments`.
- `print` becomes the list of printed lines, and `exit(1)` becomes the exit status.
- The command-line front end is not part of this model: `Sources/SwiftPolyglot/SwiftPolyglot.swift`, `RuntimeError.swift`, `Package.swift`, the XCTest helpers and the test catalogs.
- `Core.SwiftPolyglotCore.GetMissingTranslationsForLanguage`, `GetMissingTranslationsFromForms`, `LegacyCore.Checker.CheckString`, `CheckLanguage` and their `LegacyScript.Script` counterparts are each the body of a loop in the source, written as a method of its own. The source has no such functions.
- `LegacyScript.Script.CheckTranslations` takes the languages as a parameter, as `checkTranslations(in:for:)` does. `SearchDirectory` passes the script's global `languages`.
