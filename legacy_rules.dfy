/** The rule shared by the two earlier revisions of the checker
    (`SwiftPolyglot.run` and the `main.swift` script): a (string, language)
    pair passes only when the language is present and its `stringUnit.state`
    is exactly "translated"; variations are never looked at. */
module LegacyRules {
  import opened Wrappers
  import opened Json
  import opened Text
  import opened Catalog
  import opened Findings
  import opened Analysis

  /** What an earlier revision warns about. */
  datatype Warning =
    | NotTranslatedInAnyLanguage(originalString: string)
    | MissingOrNotTranslatedIn(originalString: string, language: string)

  /** The `if let langDict …, let stringUnit …, let state …, state == "translated"` test. */
  predicate LegacyTranslated(localizations: seq<(string, Dict)>, language: string) {
    Get(localizations, language).Some? && IsTranslated(Get(localizations, language).value)
  }

  /** The requested languages of one string that fail the test, in order. */
  function LanguageWarnings(originalString: string, localizations: seq<(string, Dict)>, languages: seq<string>): seq<Warning> {
    if languages == [] then []
    else if LegacyTranslated(localizations, languages[0]) then LanguageWarnings(originalString, localizations, languages[1..])
    else [MissingOrNotTranslatedIn(originalString, languages[0])] + LanguageWarnings(originalString, localizations, languages[1..])
  }

  function StringWarnings(entry: (string, Dict), languages: seq<string>): seq<Warning> {
    match Localizations(entry.1)
    case None => [NotTranslatedInAnyLanguage(entry.0)]
    case Some(localizations) => LanguageWarnings(entry.0, localizations, languages)
  }

  function CatalogWarnings(strings: seq<(string, Dict)>, languages: seq<string>): seq<Warning> {
    if strings == [] then [] else StringWarnings(strings[0], languages) + CatalogWarnings(strings[1..], languages)
  }

  /** The warnings for the file at `fileURL`; a file that cannot be
      processed gets none (only its could-not-process line). */
  function FileWarnings(fs: FileSystem, fileURL: string, languages: seq<string>): seq<Warning> {
    match CatalogStrings(fs(fileURL))
    case None => []
    case Some(strings) => CatalogWarnings(strings, languages)
  }

  /** The text of a warning, naming `path` as its file; unlike the current
      checker's messages, the language is not quoted. */
  function WarningMessage(w: Warning, path: string): (text: string)
    ensures HasPrefix(text, Quote(w.originalString))
    ensures w.NotTranslatedInAnyLanguage? ==> HasSuffix(text, " is not translated in any language" + InFile(path))
    ensures w.MissingOrNotTranslatedIn? ==> HasSuffix(text, " is missing or not translated in " + w.language + InFile(path))
    ensures |text| == |Quote(w.originalString)| + |InFile(path)| +
      (if w.NotTranslatedInAnyLanguage? then |" is not translated in any language"|
       else |" is missing or not translated in " + w.language|)
  {
    match w
    case NotTranslatedInAnyLanguage(originalString) =>
      var tail := " is not translated in any language" + InFile(path);
      var text := Quote(originalString) + tail;
      assert text[..|Quote(originalString)|] == Quote(originalString) && text[|text| - |tail|..] == tail;
      text
    case MissingOrNotTranslatedIn(originalString, language) =>
      var tail := " is missing or not translated in " + language + InFile(path);
      var text := Quote(originalString) + tail;
      assert text[..|Quote(originalString)|] == Quote(originalString) && text[|text| - |tail|..] == tail;
      text
  }

  /** The printed lines of some warnings, one per warning, in order. */
  function Rendered(warnings: seq<Warning>, render: Warning -> string): (lines: seq<string>)
    ensures |lines| == |warnings|
  {
    if warnings == [] then [] else [render(warnings[0])] + Rendered(warnings[1..], render)
  }

  /** The warnings of the languages from `j` on are those of language `j`
      followed by those of the rest. */
  lemma LanguageWarningsAt(originalString: string, localizations: seq<(string, Dict)>, languages: seq<string>, j: nat)
    requires j < |languages|
    ensures LanguageWarnings(originalString, localizations, languages[j..]) ==
      LanguageWarnings(originalString, localizations, [languages[j]]) + LanguageWarnings(originalString, localizations, languages[j + 1..])
  {
    assert languages[j..][0] == languages[j] && languages[j..][1..] == languages[j + 1..];
    assert [languages[j]][1..] == [];
  }

  /** The same for the strings of a catalog. */
  lemma CatalogWarningsAt(strings: seq<(string, Dict)>, languages: seq<string>, i: nat)
    requires i < |strings|
    ensures CatalogWarnings(strings[i..], languages) == StringWarnings(strings[i], languages) + CatalogWarnings(strings[i + 1..], languages)
  {
    assert strings[i..][0] == strings[i] && strings[i..][1..] == strings[i + 1..];
  }

  lemma {:induction false} RenderedAppend(a: seq<Warning>, b: seq<Warning>, render: Warning -> string)
    ensures Rendered(a + b, render) == Rendered(a, render) + Rendered(b, render)
  {
    if a == [] {
      assert a + b == b;
    } else {
      assert (a + b)[0] == a[0] && (a + b)[1..] == a[1..] + b;
      RenderedAppend(a[1..], b, render);
    }
  }

  /** `arguments[i].split(separator: ",")`, empty pieces dropped. */
  function LanguageCodes(argument: string): (languages: seq<string>)
    ensures forall k :: 0 <= k < |languages| ==> languages[k] != [] && ',' !in languages[k]
    ensures Concat(languages) == Without(argument, ',')
    ensures argument != [] && ',' !in argument ==> languages == [argument]
    ensures forall i :: 0 <= i < |argument| && argument[i] == ',' ==>
      languages == Split(argument[..i], ',') + Split(argument[i + 1..], ',')
  {
    SplitKeepsOtherCharacters(argument, ',');
    SplitAtEverySeparator(argument, ',');
    SplitNoSeparator(argument, ',');
    Split(argument, ',')
  }

  const ErrorOnMissingFlag: string := "--errorOnMissing"

  /** `arguments.contains("--errorOnMissing")`, anywhere among the arguments. */
  predicate ErrorOnMissing(arguments: seq<string>) {
    ErrorOnMissingFlag in arguments
  }

  // ---------------------------------------------------------------------

  /** A pair is flagged exactly when the language is missing, its value has
      no object `stringUnit`, the unit has no string `state`, or the state is
      not "translated". */
  lemma LegacyFlaggedIff(localizations: seq<(string, Dict)>, language: string)
    ensures !LegacyTranslated(localizations, language) <==>
      Get(localizations, language).None? ||
      AsDict(Get(Get(localizations, language).value, "stringUnit")).None? ||
      AsString(Get(AsDict(Get(Get(localizations, language).value, "stringUnit")).value, "state")).None? ||
      AsString(Get(AsDict(Get(Get(localizations, language).value, "stringUnit")).value, "state")).value != TranslatedState
  {
  }

  /** Each requested language that fails the test is warned about once per
      request, and one that passes never. */
  lemma {:induction false} LanguageWarningCount(originalString: string, localizations: seq<(string, Dict)>, languages: seq<string>, language: string)
    ensures multiset(LanguageWarnings(originalString, localizations, languages))[MissingOrNotTranslatedIn(originalString, language)]
            == if LegacyTranslated(localizations, language) then 0 else multiset(languages)[language]
    ensures forall w :: w in LanguageWarnings(originalString, localizations, languages) ==>
      w.MissingOrNotTranslatedIn? && w.originalString == originalString && w.language in languages
  {
    if languages != [] {
      LanguageWarningCount(originalString, localizations, languages[1..], language);
      assert languages == [languages[0]] + languages[1..];
      assert multiset(languages)[language] == (if languages[0] == language then 1 else 0) + multiset(languages[1..])[language];
    }
  }

  /** A string without an object-of-objects `localizations` gets exactly the
      one any-language warning; any other string never gets it. */
  lemma NotTranslatedInAnyLanguageIff(entry: (string, Dict), languages: seq<string>)
    ensures Localizations(entry.1).None? ==> StringWarnings(entry, languages) == [NotTranslatedInAnyLanguage(entry.0)]
    ensures Localizations(entry.1).Some? ==> NotTranslatedInAnyLanguage(entry.0) !in StringWarnings(entry, languages)
  {
    if Localizations(entry.1).Some? {
      LanguageWarningCount(entry.0, Localizations(entry.1).value, languages, "");
    }
  }

  /** The warnings of `front + back` are those of `front` followed by those
      of `back`. */
  lemma {:induction false} CatalogWarningsInOrder(front: seq<(string, Dict)>, back: seq<(string, Dict)>, languages: seq<string>)
    ensures CatalogWarnings(front + back, languages) == CatalogWarnings(front, languages) + CatalogWarnings(back, languages)
  {
    if front == [] {
      assert front + back == back;
    } else {
      assert (front + back)[0] == front[0] && (front + back)[1..] == front[1..] + back;
      CatalogWarningsInOrder(front[1..], back, languages);
    }
  }

  /** A string passes when it has localizations in which every requested
      language passes. */
  ghost predicate LegacyStringComplete(entry: (string, Dict), languages: seq<string>) {
    match Localizations(entry.1)
    case None => false
    case Some(localizations) => forall l :: l in languages ==> LegacyTranslated(localizations, l)
  }

  lemma StringNoWarningsIff(entry: (string, Dict), languages: seq<string>)
    ensures StringWarnings(entry, languages) == [] <==> LegacyStringComplete(entry, languages)
  {
    if Localizations(entry.1).Some? {
      var localizations := Localizations(entry.1).value;
      var warnings := LanguageWarnings(entry.0, localizations, languages);
      forall l | l in languages
        ensures LegacyTranslated(localizations, l) <==> MissingOrNotTranslatedIn(entry.0, l) !in warnings
      {
        LanguageWarningCount(entry.0, localizations, languages, l);
      }
      LanguageWarningCount(entry.0, localizations, languages, "");
      if warnings != [] {
        assert warnings[0] in warnings;
      }
    }
  }

  /** A catalog raises no warning exactly when every string passes. */
  lemma {:induction false} NoWarningsIff(strings: seq<(string, Dict)>, languages: seq<string>)
    ensures CatalogWarnings(strings, languages) == [] <==>
      forall i :: 0 <= i < |strings| ==> LegacyStringComplete(strings[i], languages)
  {
    if strings != [] {
      NoWarningsIff(strings[1..], languages);
      StringNoWarningsIff(strings[0], languages);
      assert forall i :: 1 <= i < |strings| ==> strings[i] == strings[1..][i - 1];
    }
  }

  // ---------------------------------------------------------------------
  // Compared with the current checker

  /** A string without localizations is reported alike by both. */
  lemma AllLanguagesAgree(entry: (string, Dict), languages: seq<string>, filePath: string)
    requires Localizations(entry.1).None?
    ensures StringWarnings(entry, languages) == [NotTranslatedInAnyLanguage(entry.0)]
    ensures StringFindings(entry, languages, filePath) ==
      Ok([MissingTranslation(MissingTranslationForAllLanguages, filePath, entry.0)])
  {
  }

  /** Where no variations can be read, every gap the current checker finds
      for a pair is also flagged by the earlier rule. */
  lemma StricterWithoutVariations(originalString: string, localizations: seq<(string, Dict)>, language: string, filePath: string)
    requires Get(localizations, language).Some? ==>
      AsDictOfDictsOfDicts(Get(Get(localizations, language).value, "variations")).None?
    ensures LanguageFindings(originalString, localizations, language, filePath) != Ok([]) ==>
      !LegacyTranslated(localizations, language)
  {
  }

  /** The earlier rule is strictly stricter there: a language with no
      `stringUnit` is flagged by it and accepted by the current checker. */
  lemma MissingUnitFlaggedOnlyByLegacy()
    ensures !LegacyTranslated([("en", [])], "en")
    ensures LanguageFindings("Hello", [("en", [])], "en", "Localizable.xcstrings") == Ok([])
  {
  }

  /** With variations it is not: a translated unit next to a pending plural
      form passes the earlier rule and is a gap for the current checker. */
  lemma PendingPluralFlaggedOnlyByCore()
    ensures var pending := JObject([("stringUnit", JObject([("state", JString("pending"))]))]);
      var dict := [("stringUnit", JObject([("state", JString("translated"))])),
                   ("variations", JObject([("plural", JObject([("one", pending)]))]))];
      LegacyTranslated([("en", dict)], "en") &&
      LanguageFindings("%d files", [("en", dict)], "en", "Localizable.xcstrings") != Ok([])
  {
    var unit := [("state", JString("pending"))];
    var form := [("stringUnit", JObject(unit))];
    var pending := JObject(form);
    var dict := [("stringUnit", JObject([("state", JString("translated"))])),
                 ("variations", JObject([("plural", JObject([("one", pending)]))]))];
    assert Get(dict, "stringUnit") == Some(JObject([("state", JString("translated"))]));
    assert Get(dict, "variations") == Some(JObject([("plural", JObject([("one", pending)]))]));
    var forms := Dicts([("one", pending)]);
    assert forms.Some? && |forms.value| == 1 && forms.value[0] == ("one", form);
    assert forms.value == [("one", form)];
    var variations := DictsOfDicts([("plural", JObject([("one", pending)]))]);
    assert variations.Some? && |variations.value| == 1 && variations.value[0] == ("plural", [("one", form)]);
    assert variations.value == [("plural", [("one", form)])];
    assert !IsTranslated(form);
    FormFindingsEmpty(Plural, [("one", form)], "%d files", "en", "Localizable.xcstrings");
    VariationFindingsEmpty(variations.value, "%d files", "en", "Localizable.xcstrings");
  }
}
