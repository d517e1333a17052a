/** `SwiftPolyglot.run`, the revision before `SwiftPolyglotCore`: it reads
    its language codes and flag from the arguments, checks every String
    Catalog of the current directory with the earlier rule, sets a flag on
    every warning, and ends with a verdict or exit status 1. */
module LegacyCore {
  import opened Wrappers
  import opened Json
  import opened Text
  import opened Catalog
  import opened Findings
  import opened Analysis
  import opened LegacyRules

  const UsageLine: string := "Usage: script.swift " + "<language codes> [--errorOnMissing]"

  const ErrorLine: string := "Error: One or more translations are missing."

  const CompletedLine: string := "Completed with missing translations."

  const AllPresentLine: string := "All translations are present."

  /** Everything printed, and the exit status (0 when `run` returns). */
  datatype LegacyOutcome = LegacyOutcome(lines: seq<string>, exitStatus: nat)

  /** What `logWarning` reads besides its arguments. */
  datatype Settings = Settings(errorOnMissing: bool, isRunningFromGitHubActions: bool)

  /** `logWarning`: an error annotation inside a GitHub Action when the flag
      is set, a warning annotation inside one otherwise, the plain message
      elsewhere. */
  function WarningLine(settings: Settings, file: string, message: string): (line: string)
    ensures !settings.isRunningFromGitHubActions ==> line == message
    ensures settings.isRunningFromGitHubActions ==>
      HasSuffix(line, message) &&
      (HasPrefix(line, "::error file=" + file + "::") <==> settings.errorOnMissing) &&
      (HasPrefix(line, "::warning file=" + file + "::") <==> !settings.errorOnMissing)
    ensures settings.isRunningFromGitHubActions ==>
      |line| == |(if settings.errorOnMissing then "::error file=" else "::warning file=") + file + "::"| + |message|
  {
    var error := "::error file=" + file + "::";
    var warning := "::warning file=" + file + "::";
    if settings.isRunningFromGitHubActions then
      if settings.errorOnMissing then
        var line := error + message;
        assert line[..|error|] == error && line[|line| - |message|..] == message;
        assert line[2] == 'e' && warning[2] == 'w';
        line
      else
        var line := warning + message;
        assert line[..|warning|] == warning && line[|line| - |message|..] == message;
        assert line[2] == 'w' && error[2] == 'e';
        line
    else message
  }

  function Renderer(settings: Settings, fileURL: string): Warning -> string {
    w => WarningLine(settings, fileURL, WarningMessage(w, fileURL))
  }

  /** What `checkTranslations` prints for one file. */
  function CheckLines(settings: Settings, fs: FileSystem, fileURL: string, languages: seq<string>): seq<string> {
    match CatalogStrings(fs(fileURL))
    case None => [CouldNotProcessLine(settings.isRunningFromGitHubActions, fileURL)]
    case Some(strings) => Rendered(CatalogWarnings(strings, languages), Renderer(settings, fileURL))
  }

  /** `URL(fileURLWithPath: dirPath).appendingPathComponent(file).path` */
  function FileURL(dirPath: string, file: string): string {
    dirPath + "/" + file
  }

  /** What `searchDirectory` prints: the enumerated entries ending in
      ".xcstrings" are checked in order, the others skipped. */
  function SearchLines(settings: Settings, fs: FileSystem, dirPath: string, entries: seq<string>, languages: seq<string>): seq<string> {
    if entries == [] then []
    else if IsStringCatalogPath(entries[0]) then
      CheckLines(settings, fs, FileURL(dirPath, entries[0]), languages) + SearchLines(settings, fs, dirPath, entries[1..], languages)
    else SearchLines(settings, fs, dirPath, entries[1..], languages)
  }

  /** Some checked file raised a warning. */
  function AnyWarnings(fs: FileSystem, dirPath: string, entries: seq<string>, languages: seq<string>): (r: bool)
    ensures r <==> exists i :: (0 <= i < |entries| && IsStringCatalogPath(entries[i]) &&
      FileWarnings(fs, FileURL(dirPath, entries[i]), languages) != [])
  {
    if entries == [] then false
    else
      var rest := AnyWarnings(fs, dirPath, entries[1..], languages);
      assert rest <==> exists i :: (1 <= i < |entries| && IsStringCatalogPath(entries[i]) &&
        FileWarnings(fs, FileURL(dirPath, entries[i]), languages) != []) by {
        assert forall i :: 1 <= i < |entries| ==> entries[i] == entries[1..][i - 1];
        if rest {
          var i :| 0 <= i < |entries[1..]| && IsStringCatalogPath(entries[1..][i]) &&
            FileWarnings(fs, FileURL(dirPath, entries[1..][i]), languages) != [];
          assert entries[i + 1] == entries[1..][i];
        }
      }
      (IsStringCatalogPath(entries[0]) && FileWarnings(fs, FileURL(dirPath, entries[0]), languages) != []) || rest
  }

  /** `run` */
  function RunSpec(arguments: seq<string>, isRunningFromGitHubActions: bool, currentDirectoryPath: string, entries: seq<string>, fs: FileSystem): LegacyOutcome {
    if |arguments| == 0 then LegacyOutcome([UsageLine], 1)
    else
      var languages := LanguageCodes(arguments[0]);
      var settings := Settings(ErrorOnMissing(arguments), isRunningFromGitHubActions);
      var lines := SearchLines(settings, fs, currentDirectoryPath, entries, languages);
      var missingTranslations := AnyWarnings(fs, currentDirectoryPath, entries, languages);
      if missingTranslations && settings.errorOnMissing then LegacyOutcome(lines + [ErrorLine], 1)
      else if missingTranslations then LegacyOutcome(lines + [CompletedLine], 0)
      else LegacyOutcome(lines + [AllPresentLine], 0)
  }

  /** The nested functions of `run` and the state they capture: the
      `missingTranslations` flag and what has been printed. */
  class Checker {
    const settings: Settings
    var missingTranslations: bool
    var output: seq<string>

    constructor (settings: Settings)
      ensures this.settings == settings && !missingTranslations && output == []
    {
      this.settings := settings;
      missingTranslations := false;
      output := [];
    }

    method LogWarning(file: string, message: string)
      modifies this
      ensures output == old(output) + [WarningLine(settings, file, message)]
      ensures missingTranslations == old(missingTranslations)
    {
      output := output + [WarningLine(settings, file, message)];
    }

    /** `checkTranslations`: the flag is set, and never cleared, exactly
        when the file raises a warning. */
    method CheckTranslations(fs: FileSystem, fileURL: string, languages: seq<string>)
      modifies this
      ensures output == old(output) + CheckLines(settings, fs, fileURL, languages)
      ensures missingTranslations == (old(missingTranslations) || FileWarnings(fs, fileURL, languages) != [])
    {
      match CatalogStrings(fs(fileURL)) {
        case None =>
          output := output + [CouldNotProcessLine(settings.isRunningFromGitHubActions, fileURL)];
        case Some(strings) =>
          ghost var render := Renderer(settings, fileURL);
          ghost var found: seq<Warning> := [];
          var i := 0;
          assert strings[i..] == strings;
          while i < |strings|
            invariant 0 <= i <= |strings|
            invariant CatalogWarnings(strings, languages) == found + CatalogWarnings(strings[i..], languages)
            invariant output == old(output) + Rendered(found, render)
            invariant missingTranslations == (old(missingTranslations) || found != [])
          {
            ghost var here := StringWarnings(strings[i], languages);
            CatalogWarningsAt(strings, languages, i);
            RenderedAppend(found, here, render);
            AppendAssociative(old(output), Rendered(found, render), Rendered(here, render));
            AppendAssociative(found, here, CatalogWarnings(strings[i + 1..], languages));
            CheckString(fileURL, strings[i], languages);
            found := found + here;
            i := i + 1;
          }
          assert strings[i..] == [];
          assert found + [] == found;
      }
    }

    /** One pass of the `for (originalString, translations) in strings`
        loop: the any-language warning when the string has no
        localizations, the per-language loop otherwise. */
    method CheckString(fileURL: string, entry: (string, Dict), languages: seq<string>)
      modifies this
      ensures output == old(output) + Rendered(StringWarnings(entry, languages), Renderer(settings, fileURL))
      ensures missingTranslations == (old(missingTranslations) || StringWarnings(entry, languages) != [])
    {
      var (originalString, translations) := entry;
      match Localizations(translations) {
        case None =>
          var w := NotTranslatedInAnyLanguage(originalString);
          assert Rendered([w], Renderer(settings, fileURL)) == [WarningLine(settings, fileURL, WarningMessage(w, fileURL))];
          LogWarning(fileURL, WarningMessage(w, fileURL));
          missingTranslations := true;
        case Some(localizations) =>
          CheckLanguages(fileURL, originalString, localizations, languages);
      }
    }

    /** The inner `for lang in languages` loop of `checkTranslations`, for
        one string with localizations. */
    method CheckLanguages(fileURL: string, originalString: string, localizations: seq<(string, Dict)>, languages: seq<string>)
      modifies this
      ensures output == old(output) + Rendered(LanguageWarnings(originalString, localizations, languages), Renderer(settings, fileURL))
      ensures missingTranslations == (old(missingTranslations) || LanguageWarnings(originalString, localizations, languages) != [])
    {
      ghost var render := Renderer(settings, fileURL);
      ghost var found: seq<Warning> := [];
      var j := 0;
      assert languages[j..] == languages;
      while j < |languages|
        invariant 0 <= j <= |languages|
        invariant LanguageWarnings(originalString, localizations, languages) ==
          found + LanguageWarnings(originalString, localizations, languages[j..])
        invariant output == old(output) + Rendered(found, render)
        invariant missingTranslations == (old(missingTranslations) || found != [])
      {
        ghost var here := LanguageWarnings(originalString, localizations, [languages[j]]);
        LanguageWarningsAt(originalString, localizations, languages, j);
        RenderedAppend(found, here, render);
        AppendAssociative(old(output), Rendered(found, render), Rendered(here, render));
        AppendAssociative(found, here, LanguageWarnings(originalString, localizations, languages[j + 1..]));
        CheckLanguage(fileURL, originalString, localizations, languages[j]);
        found := found + here;
        j := j + 1;
      }
      assert languages[j..] == [];
      assert found + [] == found;
    }

    /** One pass of that loop: the unquoted-language warning when the
        language fails the test. */
    method CheckLanguage(fileURL: string, originalString: string, localizations: seq<(string, Dict)>, language: string)
      modifies this
      ensures output == old(output) + Rendered(LanguageWarnings(originalString, localizations, [language]), Renderer(settings, fileURL))
      ensures missingTranslations == (old(missingTranslations) || !LegacyTranslated(localizations, language))
    {
      assert [language][1..] == [];
      if !LegacyTranslated(localizations, language) {
        var w := MissingOrNotTranslatedIn(originalString, language);
        assert Rendered([w], Renderer(settings, fileURL)) == [WarningLine(settings, fileURL, WarningMessage(w, fileURL))];
        LogWarning(fileURL, WarningMessage(w, fileURL));
        missingTranslations := true;
      }
    }

    /** `searchDirectory` over the enumerated entries of `dirPath`. */
    method SearchDirectory(fs: FileSystem, dirPath: string, entries: seq<string>, languages: seq<string>)
      modifies this
      ensures output == old(output) + SearchLines(settings, fs, dirPath, entries, languages)
      ensures missingTranslations == (old(missingTranslations) || AnyWarnings(fs, dirPath, entries, languages))
    {
      var i := 0;
      assert entries[i..] == entries;
      while i < |entries|
        invariant 0 <= i <= |entries|
        invariant old(output) + SearchLines(settings, fs, dirPath, entries, languages) ==
          output + SearchLines(settings, fs, dirPath, entries[i..], languages)
        invariant (old(missingTranslations) || AnyWarnings(fs, dirPath, entries, languages)) ==
          (missingTranslations || AnyWarnings(fs, dirPath, entries[i..], languages))
      {
        var file := entries[i];
        assert entries[i..][1..] == entries[i + 1..];
        if IsStringCatalogPath(file) {
          ghost var before := output;
          CheckTranslations(fs, FileURL(dirPath, file), languages);
          AppendAssociative(before, CheckLines(settings, fs, FileURL(dirPath, file), languages),
            SearchLines(settings, fs, dirPath, entries[i + 1..], languages));
        }
        i := i + 1;
      }
      assert entries[i..] == [];
    }
  }

  /** `run`, including the usage guard and the final branch on the flag. */
  method Run(arguments: seq<string>, isRunningFromGitHubActions: bool, currentDirectoryPath: string, entries: seq<string>, fs: FileSystem)
    returns (outcome: LegacyOutcome)
    ensures outcome == RunSpec(arguments, isRunningFromGitHubActions, currentDirectoryPath, entries, fs)
  {
    if |arguments| == 0 {
      return LegacyOutcome([UsageLine], 1);
    }
    var languages := LanguageCodes(arguments[0]);
    var errorOnMissing := ErrorOnMissingFlag in arguments;
    var settings := Settings(errorOnMissing, isRunningFromGitHubActions);
    var checker := new Checker(settings);
    checker.SearchDirectory(fs, currentDirectoryPath, entries, languages);
    ghost var lines := SearchLines(settings, fs, currentDirectoryPath, entries, languages);
    ghost var missing := AnyWarnings(fs, currentDirectoryPath, entries, languages);
    assert [] + lines == lines;
    assert checker.output == lines && checker.missingTranslations == missing;
    if checker.missingTranslations && errorOnMissing {
      outcome := LegacyOutcome(checker.output + [ErrorLine], 1);
    } else if checker.missingTranslations {
      outcome := LegacyOutcome(checker.output + [CompletedLine], 0);
    } else {
      outcome := LegacyOutcome(checker.output + [AllPresentLine], 0);
    }
  }

  // ---------------------------------------------------------------------

  /** Without arguments only the usage line is printed and the exit status
      is 1, whatever the directory holds. */
  lemma UsageWithoutArguments(isRunningFromGitHubActions: bool, currentDirectoryPath: string, entries: seq<string>, fs: FileSystem)
    ensures RunSpec([], isRunningFromGitHubActions, currentDirectoryPath, entries, fs) == LegacyOutcome([UsageLine], 1)
  {
  }

  /** The exit status is 1 exactly when there are no arguments, or some
      checked file raised a warning and "--errorOnMissing" was given; the
      last line then says so. */
  lemma ExitStatus(arguments: seq<string>, isRunningFromGitHubActions: bool, currentDirectoryPath: string, entries: seq<string>, fs: FileSystem)
    requires |arguments| > 0
    ensures var o := RunSpec(arguments, isRunningFromGitHubActions, currentDirectoryPath, entries, fs);
      var missing := exists i :: (0 <= i < |entries| && IsStringCatalogPath(entries[i]) &&
        FileWarnings(fs, FileURL(currentDirectoryPath, entries[i]), LanguageCodes(arguments[0])) != []);
      |o.lines| > 0 &&
      (o.exitStatus == 1 <==> missing && ErrorOnMissing(arguments)) &&
      (o.lines[|o.lines| - 1] == AllPresentLine <==> !missing)
  {
    assert AllPresentLine[0] != CompletedLine[0] && AllPresentLine[0] != ErrorLine[0];
  }

  lemma {:induction false} SearchReadsOnlyCatalogs(settings: Settings, fs: FileSystem, other: FileSystem, dirPath: string, entries: seq<string>, languages: seq<string>)
    requires forall e :: e in entries && IsStringCatalogPath(e) ==> fs(FileURL(dirPath, e)) == other(FileURL(dirPath, e))
    ensures SearchLines(settings, fs, dirPath, entries, languages) == SearchLines(settings, other, dirPath, entries, languages)
    ensures AnyWarnings(fs, dirPath, entries, languages) == AnyWarnings(other, dirPath, entries, languages)
  {
    if entries != [] {
      SearchReadsOnlyCatalogs(settings, fs, other, dirPath, entries[1..], languages);
    }
  }

  /** Only the enumerated entries ending in ".xcstrings" are read. */
  lemma OnlyCatalogsAreRead(arguments: seq<string>, isRunningFromGitHubActions: bool, currentDirectoryPath: string, entries: seq<string>, fs: FileSystem, other: FileSystem)
    requires forall e :: e in entries && IsStringCatalogPath(e) ==> fs(FileURL(currentDirectoryPath, e)) == other(FileURL(currentDirectoryPath, e))
    ensures RunSpec(arguments, isRunningFromGitHubActions, currentDirectoryPath, entries, fs) ==
      RunSpec(arguments, isRunningFromGitHubActions, currentDirectoryPath, entries, other)
  {
    if |arguments| > 0 {
      SearchReadsOnlyCatalogs(Settings(ErrorOnMissing(arguments), isRunningFromGitHubActions), fs, other,
        currentDirectoryPath, entries, LanguageCodes(arguments[0]));
    }
  }

  /** Each warning is printed on its own line, with the annotation its
      settings choose. */
  lemma {:induction false} OneLinePerWarning(settings: Settings, fileURL: string, warnings: seq<Warning>, k: nat)
    requires k < |warnings|
    ensures Rendered(warnings, Renderer(settings, fileURL))[k] == WarningLine(settings, fileURL, WarningMessage(warnings[k], fileURL))
  {
    var render := Renderer(settings, fileURL);
    assert Rendered(warnings, render) == [render(warnings[0])] + Rendered(warnings[1..], render);
    if k > 0 {
      OneLinePerWarning(settings, fileURL, warnings[1..], k - 1);
      assert warnings[1..][k - 1] == warnings[k];
    }
  }
}
