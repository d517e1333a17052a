/** `SwiftPolyglotCore`: picks the String Catalogs among the given paths,
    walks each one for missing translations, prints one line per finding
    and ends with a verdict, or throws. */
module Core {
  import opened Wrappers
  import opened Json
  import opened Text
  import opened Catalog
  import opened Findings
  import opened PolyglotErrors
  import opened Analysis

  /** What `extractStrings` prints, and the strings it returns. */
  datatype Extraction = Extraction(lines: seq<string>, strings: seq<(string, Dict)>)

  /** What the task for one file prints, and what it returns or throws. */
  datatype Report = Report(lines: seq<string>, scan: Scan)

  /** How a run that does not throw ends. */
  datatype Verdict = CompletedWithMissingTranslations | AllTranslationsPresent

  /** Everything a run prints, and whether it returns or throws. */
  datatype Outcome = Outcome(lines: seq<string>, result: Result<Verdict, SwiftPolyglotError>)

  const CompletedWithMissingText: string := "Completed with missing translations."

  const AllPresentText: string := "All translations are present."

  function VerdictLine(v: Verdict): (line: string)
    ensures line == CompletedWithMissingText <==> v == CompletedWithMissingTranslations
    ensures v == AllTranslationsPresent ==> line == AllPresentText
  {
    match v
    case CompletedWithMissingTranslations => CompletedWithMissingText
    case AllTranslationsPresent =>
      assert AllPresentText[0] != CompletedWithMissingText[0];
      AllPresentText
  }

  /** The walks of two consecutive tasks: once one task has thrown, later
      ones are not awaited. */
  function Chain(a: Report, b: Report): Report {
    if a.scan.Err? then a else Report(a.lines + b.lines, Then(a.scan, b.scan))
  }

  lemma ChainNothing(b: Report)
    ensures Chain(Report([], Ok([])), b) == b
  {
    ThenNothing(b.scan);
    assert [] + b.lines == b.lines;
  }

  lemma ChainAssociative(a: Report, b: Report, c: Report)
    ensures Chain(Chain(a, b), c) == Chain(a, Chain(b, c))
  {
    ThenAssociative(a.scan, b.scan, c.scan);
    assert (a.lines + b.lines) + c.lines == a.lines + (b.lines + c.lines);
  }

  datatype SwiftPolyglotCore = SwiftPolyglotCore(
    filePaths: seq<string>,
    languageCodes: seq<string>,
    logsErrorOnMissingTranslation: bool,
    isRunningInAGitHubAction: bool)
  {
    /** `getStringCatalogURLs`: the paths ending in ".xcstrings", each as
        often as it is given. A URL is represented by its path. */
    static function GetStringCatalogURLs(filePaths: seq<string>): (urls: seq<string>)
      ensures forall u :: u in urls ==> IsStringCatalogPath(u)
      ensures forall p :: multiset(urls)[p] == if IsStringCatalogPath(p) then multiset(filePaths)[p] else 0
    {
      if filePaths == [] then []
      else
        assert filePaths == [filePaths[0]] + filePaths[1..];
        if IsStringCatalogPath(filePaths[0]) then [filePaths[0]] + GetStringCatalogURLs(filePaths[1..])
        else GetStringCatalogURLs(filePaths[1..])
    }

    /** The catalogs keep the order of the paths. */
    static lemma {:induction false} CatalogURLsInOrder(front: seq<string>, back: seq<string>)
      ensures GetStringCatalogURLs(front + back) == GetStringCatalogURLs(front) + GetStringCatalogURLs(back)
    {
      if front == [] {
        assert front + back == back;
      } else {
        assert (front + back)[0] == front[0] && (front + back)[1..] == front[1..] + back;
        CatalogURLsInOrder(front[1..], back);
      }
    }

    /** `extractStrings`: the `strings` object of objects of the file, or
        nothing and the could-not-process line. */
    static function ExtractStrings(fs: FileSystem, fileURL: string, isRunningInAGitHubAction: bool): (r: Extraction)
      ensures r.lines == [] <==> CatalogStrings(fs(fileURL)).Some?
      ensures CatalogStrings(fs(fileURL)).Some? ==> r.strings == CatalogStrings(fs(fileURL)).value
      ensures CatalogStrings(fs(fileURL)).None? ==>
        r.strings == [] && r.lines == [CouldNotProcessLine(isRunningInAGitHubAction, fileURL)]
    {
      match CatalogStrings(fs(fileURL))
      case None => Extraction([CouldNotProcessLine(isRunningInAGitHubAction, fileURL)], [])
      case Some(strings) => Extraction([], strings)
    }

    /** `getMissingTranslationsFromVariations` */
    method GetMissingTranslationsFromVariations(
      variations: seq<(string, seq<(string, Dict)>)>,
      originalString: string,
      lang: string,
      filePath: string)
      returns (r: Scan)
      ensures r == VariationFindings(variations, originalString, lang, filePath)
    {
      var missingTranslations: seq<MissingTranslation> := [];
      var i := 0;
      assert variations[i..] == variations;
      ThenNothing(VariationFindings(variations, originalString, lang, filePath));
      while i < |variations|
        invariant 0 <= i <= |variations|
        invariant VariationFindings(variations, originalString, lang, filePath) ==
          Then(Ok(missingTranslations), VariationFindings(variations[i..], originalString, lang, filePath))
      {
        var (variationKey, variationDict) := variations[i];
        assert variations[i..][1..] == variations[i + 1..];
        if variationKey == "plural" || variationKey == "device" {
          var kind := if variationKey == "plural" then Plural else Device;
          var found := GetMissingTranslationsFromForms(kind, variationDict, originalString, lang, filePath);
          assert VariationFinding(variations[i], originalString, lang, filePath) == Ok(found);
          assert VariationFindings(variations[i..], originalString, lang, filePath) ==
            Then(Ok(found), VariationFindings(variations[i + 1..], originalString, lang, filePath));
          ThenAssociative(Ok(missingTranslations), Ok(found), VariationFindings(variations[i + 1..], originalString, lang, filePath));
          missingTranslations := missingTranslations + found;
        } else {
          return Err(UnsupportedVariation(variationKey));
        }
        i := i + 1;
      }
      ThenNothing(Ok(missingTranslations));
      assert Then(Ok(missingTranslations), Ok([])) == Ok(missingTranslations + []);
      assert missingTranslations + [] == missingTranslations;
      return Ok(missingTranslations);
    }

    /** The body of the `for lang in languageCodes` loop of
        `getMissingTranslations`: the language's variations when it has
        them, its `stringUnit` state otherwise. */
    method GetMissingTranslationsForLanguage(localizations: seq<(string, Dict)>, originalString: string, lang: string, filePath: string)
      returns (r: Scan)
      ensures r == LanguageFindings(originalString, localizations, lang, filePath)
    {
      match Get(localizations, lang) {
        case None =>
          return Ok([MissingTranslation(MissingTranslationForLanguage(lang), filePath, originalString)]);
        case Some(languageDict) =>
          match AsDictOfDictsOfDicts(Get(languageDict, "variations")) {
            case Some(variations) =>
              r := GetMissingTranslationsFromVariations(variations, originalString, lang, filePath);
            case None =>
              match UnitState(languageDict) {
                case Some(state) =>
                  if state != TranslatedState {
                    return Ok([MissingTranslation(MissingOrNotTranslated(lang), filePath, originalString)]);
                  }
                  return Ok([]);
                case None =>
                  return Ok([]);
              }
          }
      }
    }

    /** The inner `for (form, value) in variationDict` loop of
        `getMissingTranslationsFromVariations`: one finding per form whose
        unit is not "translated", in order. */
    method GetMissingTranslationsFromForms(kind: FormKind, forms: seq<(string, Dict)>, originalString: string, lang: string, filePath: string)
      returns (found: seq<MissingTranslation>)
      ensures found == FormFindings(kind, forms, originalString, lang, filePath)
    {
      found := [];
      var j := 0;
      assert forms[j..] == forms;
      while j < |forms|
        invariant 0 <= j <= |forms|
        invariant FormFindings(kind, forms, originalString, lang, filePath) ==
          found + FormFindings(kind, forms[j..], originalString, lang, filePath)
      {
        var (form, value) := forms[j];
        ghost var here := FormFinding(kind, forms[j], originalString, lang, filePath);
        assert forms[j..][0] == forms[j] && forms[j..][1..] == forms[j + 1..];
        AppendAssociative(found, here, FormFindings(kind, forms[j + 1..], originalString, lang, filePath));
        if !IsTranslated(value) {
          found := found + [MissingTranslation(FormCategory(kind, form, lang), filePath, originalString)];
        } else {
          assert found + here == found;
        }
        j := j + 1;
      }
      assert forms[j..] == [];
      assert found + [] == found;
    }

    /** `getMissingTranslations`: every string, and for every string with
        localizations every requested language, in order. */
    method GetMissingTranslations(strings: seq<(string, Dict)>, filePath: string) returns (r: Scan)
      ensures r == FileFindings(strings, languageCodes, filePath)
    {
      var missingTranslations: seq<MissingTranslation> := [];
      var i := 0;
      assert strings[i..] == strings;
      ThenNothing(FileFindings(strings, languageCodes, filePath));
      while i < |strings|
        invariant 0 <= i <= |strings|
        invariant FileFindings(strings, languageCodes, filePath) ==
          Then(Ok(missingTranslations), FileFindings(strings[i..], languageCodes, filePath))
      {
        var (originalString, translations) := strings[i];
        assert strings[i..][1..] == strings[i + 1..];
        var rest := FileFindings(strings[i + 1..], languageCodes, filePath);
        match Localizations(translations) {
          case None =>
            var found := MissingTranslation(MissingTranslationForAllLanguages, filePath, originalString);
            ThenAssociative(Ok(missingTranslations), Ok([found]), rest);
            missingTranslations := missingTranslations + [found];
          case Some(localizations) =>
            var j := 0;
            while j < |languageCodes|
              invariant 0 <= j <= |languageCodes|
              invariant FileFindings(strings, languageCodes, filePath) ==
                Then(Ok(missingTranslations),
                  Then(LanguagesFindings(originalString, localizations, languageCodes[j..], filePath), rest))
            {
              var lang := languageCodes[j];
              assert languageCodes[j..][1..] == languageCodes[j + 1..];
              var later := LanguagesFindings(originalString, localizations, languageCodes[j + 1..], filePath);
              ThenAssociative(LanguageFindings(originalString, localizations, lang, filePath), later, rest);
              var found := GetMissingTranslationsForLanguage(localizations, originalString, lang, filePath);
              if found.Err? {
                return Err(found.error);
              }
              ThenAssociative(Ok(missingTranslations), found, Then(later, rest));
              missingTranslations := missingTranslations + found.value;
              j := j + 1;
            }
            assert languageCodes[j..] == [];
            ThenNothing(rest);
        }
        i := i + 1;
      }
      assert strings[i..] == [];
      assert missingTranslations + [] == missingTranslations;
      return Ok(missingTranslations);
    }

    /** `logForGitHubAction`: the message as an error or a warning
        annotation on the finding's file. */
    static function LogForGitHubAction(missingTranslation: MissingTranslation, logWithError: bool): (line: string)
      ensures HasPrefix(line, "::error file=" + missingTranslation.filePath + "::") <==> logWithError
      ensures HasPrefix(line, "::warning file=" + missingTranslation.filePath + "::") <==> !logWithError
      ensures HasSuffix(line, Message(missingTranslation))
      ensures |line| == |(if logWithError then "::error file=" else "::warning file=") + missingTranslation.filePath + "::"|
                        + |Message(missingTranslation)|
    {
      var path := missingTranslation.filePath;
      var message := Message(missingTranslation);
      var error := "::error file=" + path + "::";
      var warning := "::warning file=" + path + "::";
      assert error[2] == 'e' && warning[2] == 'w';
      if logWithError then
        var line := error + message;
        assert line[..|error|] == error && line[|line| - |message|..] == message;
        assert line[2] == 'e';
        line
      else
        var line := warning + message;
        assert line[..|warning|] == warning && line[|line| - |message|..] == message;
        assert line[2] == 'w';
        line
    }

    /** The line printed for one finding: an annotation inside a GitHub
        Action, the plain message elsewhere. */
    function RenderFinding(missingTranslation: MissingTranslation): (line: string)
      ensures HasSuffix(line, Message(missingTranslation))
      ensures HasPrefix(line, "::") <==> isRunningInAGitHubAction
      ensures isRunningInAGitHubAction ==>
        (HasPrefix(line, "::error file=" + missingTranslation.filePath + "::") <==> logsErrorOnMissingTranslation)
      ensures !isRunningInAGitHubAction ==> line == Message(missingTranslation)
      ensures isRunningInAGitHubAction ==> line == LogForGitHubAction(missingTranslation, logsErrorOnMissingTranslation)
    {
      if isRunningInAGitHubAction then
        AnnotationPrefix(missingTranslation, logsErrorOnMissingTranslation);
        LogForGitHubAction(missingTranslation, logsErrorOnMissingTranslation)
      else
        MessageStartsWithQuote(missingTranslation);
        Message(missingTranslation)
    }

    /** Both annotations start with "::". */
    static lemma AnnotationPrefix(missingTranslation: MissingTranslation, logWithError: bool)
      ensures HasPrefix(LogForGitHubAction(missingTranslation, logWithError), "::")
    {
      var tag := if logWithError then "::error file=" + missingTranslation.filePath + "::"
        else "::warning file=" + missingTranslation.filePath + "::";
      assert tag[..2] == "::";
      PrefixTransitive(LogForGitHubAction(missingTranslation, logWithError), tag, "::");
    }

    function RenderFindings(found: seq<MissingTranslation>): (lines: seq<string>)
      ensures |lines| == |found|
      ensures forall k :: 0 <= k < |found| ==> lines[k] == RenderFinding(found[k])
    {
      seq(|found|, k requires 0 <= k < |found| => RenderFinding(found[k]))
    }

    /** The task for one catalog: extract, walk, print one line per
        finding (nothing if the walk throws), and return the findings. */
    function CatalogReport(fs: FileSystem, fileURL: string): Report {
      var extraction := ExtractStrings(fs, fileURL, isRunningInAGitHubAction);
      match FileFindings(extraction.strings, languageCodes, fileURL)
      case Err(e) => Report(extraction.lines, Err(e))
      case Ok(found) => Report(extraction.lines + RenderFindings(found), Ok(found))
    }

    /** The tasks for the catalogs, awaited in order. */
    function Aggregate(fs: FileSystem, urls: seq<string>): Report {
      if urls == [] then Report([], Ok([]))
      else Chain(CatalogReport(fs, urls[0]), Aggregate(fs, urls[1..]))
    }

    /** `run` */
    function RunSpec(fs: FileSystem): Outcome {
      var all := Aggregate(fs, GetStringCatalogURLs(filePaths));
      match all.scan
      case Err(e) => Outcome(all.lines, Err(e))
      case Ok(missingTranslations) =>
        if missingTranslations != [] && logsErrorOnMissingTranslation then
          Outcome(all.lines, Err(MissingTranslations))
        else
          var verdict := if missingTranslations != [] then CompletedWithMissingTranslations else AllTranslationsPresent;
          Outcome(all.lines + [VerdictLine(verdict)], Ok(verdict))
    }

    /** `run`, with the task group awaited one task after the other. */
    method Run(fs: FileSystem) returns (outcome: Outcome)
      ensures outcome == RunSpec(fs)
    {
      var stringCatalogFileURLs := GetStringCatalogURLs(filePaths);
      var lines: seq<string> := [];
      var missingTranslations: seq<MissingTranslation> := [];
      var i := 0;
      assert stringCatalogFileURLs[i..] == stringCatalogFileURLs;
      ChainNothing(Aggregate(fs, stringCatalogFileURLs));
      while i < |stringCatalogFileURLs|
        invariant 0 <= i <= |stringCatalogFileURLs|
        invariant Aggregate(fs, stringCatalogFileURLs) ==
          Chain(Report(lines, Ok(missingTranslations)), Aggregate(fs, stringCatalogFileURLs[i..]))
      {
        var fileURL := stringCatalogFileURLs[i];
        assert stringCatalogFileURLs[i..][1..] == stringCatalogFileURLs[i + 1..];
        var rest := Aggregate(fs, stringCatalogFileURLs[i + 1..]);
        ChainAssociative(Report(lines, Ok(missingTranslations)), CatalogReport(fs, fileURL), rest);
        var extraction := ExtractStrings(fs, fileURL, isRunningInAGitHubAction);
        var found := GetMissingTranslations(extraction.strings, fileURL);
        if found.Err? {
          return Outcome(lines + extraction.lines, Err(found.error));
        }
        lines := lines + (extraction.lines + RenderFindings(found.value));
        missingTranslations := missingTranslations + found.value;
        i := i + 1;
      }
      assert stringCatalogFileURLs[i..] == [];
      assert lines + [] == lines && missingTranslations + [] == missingTranslations;
      if missingTranslations != [] && logsErrorOnMissingTranslation {
        return Outcome(lines, Err(MissingTranslations));
      } else if missingTranslations != [] {
        return Outcome(lines + [CompletedWithMissingText], Ok(CompletedWithMissingTranslations));
      } else {
        return Outcome(lines + [AllPresentText], Ok(AllTranslationsPresent));
      }
    }
  }
}
