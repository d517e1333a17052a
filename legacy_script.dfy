/** `main.swift`, the first revision: a top-level script with a global flag.
    It takes the language codes from the first argument after the program
    name, checks every String Catalog of the current directory with the
    earlier rule and prints plain lines, with no GitHub annotations. */
module LegacyScript {
  import opened Wrappers
  import opened Json
  import opened Text
  import opened Catalog
  import opened Findings
  import opened Analysis
  import opened LegacyRules
  import opened LegacyCore

  /** The line printed for a file that cannot be processed. */
  function ScriptCouldNotProcessLine(path: string): string {
    "Could not process file: " + path
  }

  /** `URL.absoluteString` of a file URL: the path behind the `file://`
      scheme. */
  function AbsoluteString(path: string): string {
    "file://" + path
  }

  /** A warning of the script: "Warning: " and the warning's text, naming the
      file by its absolute URL. */
  function ScriptWarningLine(fileURL: string, w: Warning): (line: string)
    ensures HasPrefix(line, "Warning: ")
    ensures line[|"Warning: "|..] == WarningMessage(w, AbsoluteString(fileURL))
  {
    var prefix := "Warning: ";
    var line := prefix + WarningMessage(w, AbsoluteString(fileURL));
    assert line[..|prefix|] == prefix;
    line
  }

  function ScriptRenderer(fileURL: string): Warning -> string {
    w => ScriptWarningLine(fileURL, w)
  }

  /** What `checkTranslations` prints for one file. */
  function ScriptCheckLines(fs: FileSystem, fileURL: string, languages: seq<string>): seq<string> {
    match CatalogStrings(fs(fileURL))
    case None => [ScriptCouldNotProcessLine(fileURL)]
    case Some(strings) => Rendered(CatalogWarnings(strings, languages), ScriptRenderer(fileURL))
  }

  /** What `searchDirectory` prints. */
  function ScriptSearchLines(fs: FileSystem, dirPath: string, entries: seq<string>, languages: seq<string>): seq<string> {
    if entries == [] then []
    else if IsStringCatalogPath(entries[0]) then
      ScriptCheckLines(fs, FileURL(dirPath, entries[0]), languages) + ScriptSearchLines(fs, dirPath, entries[1..], languages)
    else ScriptSearchLines(fs, dirPath, entries[1..], languages)
  }

  /** The whole script; `arguments` is `CommandLine.arguments`, the program
      name first. */
  function ScriptSpec(arguments: seq<string>, currentDirectoryPath: string, entries: seq<string>, fs: FileSystem): LegacyOutcome {
    if |arguments| <= 1 then LegacyOutcome([UsageLine], 1)
    else
      var languages := LanguageCodes(arguments[1]);
      var lines := ScriptSearchLines(fs, currentDirectoryPath, entries, languages);
      var missingTranslations := AnyWarnings(fs, currentDirectoryPath, entries, languages);
      if missingTranslations && ErrorOnMissing(arguments) then LegacyOutcome(lines + [ErrorLine], 1)
      else if missingTranslations then LegacyOutcome(lines + [CompletedLine], 0)
      else LegacyOutcome(lines + [AllPresentLine], 0)
  }

  /** The script's globals: the requested languages, the
      `missingTranslations` flag, and what has been printed. */
  class Script {
    const languages: seq<string>
    var missingTranslations: bool
    var output: seq<string>

    constructor (languages: seq<string>)
      ensures this.languages == languages && !missingTranslations && output == []
    {
      this.languages := languages;
      missingTranslations := false;
      output := [];
    }

    /** `checkTranslations(in:for:)`: the flag is set, and never cleared,
        exactly when the file raises a warning. */
    method CheckTranslations(fs: FileSystem, fileURL: string, languages: seq<string>)
      modifies this
      ensures output == old(output) + ScriptCheckLines(fs, fileURL, languages)
      ensures missingTranslations == (old(missingTranslations) || FileWarnings(fs, fileURL, languages) != [])
    {
      match CatalogStrings(fs(fileURL)) {
        case None =>
          output := output + [ScriptCouldNotProcessLine(fileURL)];
        case Some(strings) =>
          ghost var render := ScriptRenderer(fileURL);
          ghost var found: seq<Warning> := [];
          var i := 0;
          assert strings[i..] == strings;
          while i < |strings|
            invariant 0 <= i <= |strings|
            invariant CatalogWarnings(strings, languages) == found + CatalogWarnings(strings[i..], languages)
            invariant output == old(output) + Rendered(found, render)
            invariant missingTranslations == (old(missingTranslations) || found != [])
          {
            ghost var here := StringWarnings(strings[i], languages);
            CatalogWarningsAt(strings, languages, i);
            RenderedAppend(found, here, render);
            AppendAssociative(old(output), Rendered(found, render), Rendered(here, render));
            AppendAssociative(found, here, CatalogWarnings(strings[i + 1..], languages));
            CheckString(fileURL, strings[i], languages);
            found := found + here;
            i := i + 1;
          }
          assert strings[i..] == [];
          assert found + [] == found;
      }
    }

    /** One pass of the loop over `strings`. */
    method CheckString(fileURL: string, entry: (string, Dict), languages: seq<string>)
      modifies this
      ensures output == old(output) + Rendered(StringWarnings(entry, languages), ScriptRenderer(fileURL))
      ensures missingTranslations == (old(missingTranslations) || StringWarnings(entry, languages) != [])
    {
      var (originalString, translations) := entry;
      match Localizations(translations) {
        case None =>
          var w := NotTranslatedInAnyLanguage(originalString);
          assert Rendered([w], ScriptRenderer(fileURL)) == [ScriptWarningLine(fileURL, w)];
          output := output + [ScriptWarningLine(fileURL, w)];
          missingTranslations := true;
        case Some(localizations) =>
          CheckLanguages(fileURL, originalString, localizations, languages);
      }
    }

    /** The inner `for lang in languages` loop, for one string with
        localizations. */
    method CheckLanguages(fileURL: string, originalString: string, localizations: seq<(string, Dict)>, languages: seq<string>)
      modifies this
      ensures output == old(output) + Rendered(LanguageWarnings(originalString, localizations, languages), ScriptRenderer(fileURL))
      ensures missingTranslations == (old(missingTranslations) || LanguageWarnings(originalString, localizations, languages) != [])
    {
      ghost var render := ScriptRenderer(fileURL);
      ghost var found: seq<Warning> := [];
      var j := 0;
      assert languages[j..] == languages;
      while j < |languages|
        invariant 0 <= j <= |languages|
        invariant LanguageWarnings(originalString, localizations, languages) ==
          found + LanguageWarnings(originalString, localizations, languages[j..])
        invariant output == old(output) + Rendered(found, render)
        invariant missingTranslations == (old(missingTranslations) || found != [])
      {
        ghost var here := LanguageWarnings(originalString, localizations, [languages[j]]);
        LanguageWarningsAt(originalString, localizations, languages, j);
        RenderedAppend(found, here, render);
        AppendAssociative(old(output), Rendered(found, render), Rendered(here, render));
        AppendAssociative(found, here, LanguageWarnings(originalString, localizations, languages[j + 1..]));
        CheckLanguage(fileURL, originalString, localizations, languages[j]);
        found := found + here;
        j := j + 1;
      }
      assert languages[j..] == [];
      assert found + [] == found;
    }

    /** One pass of that loop. */
    method CheckLanguage(fileURL: string, originalString: string, localizations: seq<(string, Dict)>, language: string)
      modifies this
      ensures output == old(output) + Rendered(LanguageWarnings(originalString, localizations, [language]), ScriptRenderer(fileURL))
      ensures missingTranslations == (old(missingTranslations) || !LegacyTranslated(localizations, language))
    {
      assert [language][1..] == [];
      if !LegacyTranslated(localizations, language) {
        var w := MissingOrNotTranslatedIn(originalString, language);
        assert Rendered([w], ScriptRenderer(fileURL)) == [ScriptWarningLine(fileURL, w)];
        output := output + [ScriptWarningLine(fileURL, w)];
        missingTranslations := true;
      }
    }

    /** `searchDirectory`: the entries ending in ".xcstrings" are checked
        for the global `languages`. */
    method SearchDirectory(fs: FileSystem, dirPath: string, entries: seq<string>)
      modifies this
      ensures output == old(output) + ScriptSearchLines(fs, dirPath, entries, languages)
      ensures missingTranslations == (old(missingTranslations) || AnyWarnings(fs, dirPath, entries, languages))
    {
      var i := 0;
      assert entries[i..] == entries;
      while i < |entries|
        invariant 0 <= i <= |entries|
        invariant old(output) + ScriptSearchLines(fs, dirPath, entries, languages) ==
          output + ScriptSearchLines(fs, dirPath, entries[i..], languages)
        invariant (old(missingTranslations) || AnyWarnings(fs, dirPath, entries, languages)) ==
          (missingTranslations || AnyWarnings(fs, dirPath, entries[i..], languages))
      {
        var file := entries[i];
        assert entries[i..][1..] == entries[i + 1..];
        if IsStringCatalogPath(file) {
          ghost var before := output;
          CheckTranslations(fs, FileURL(dirPath, file), languages);
          AppendAssociative(before, ScriptCheckLines(fs, FileURL(dirPath, file), languages),
            ScriptSearchLines(fs, dirPath, entries[i + 1..], languages));
        }
        i := i + 1;
      }
      assert entries[i..] == [];
    }
  }

  /** The script from the usage guard to the final branch on the flag. */
  method RunScript(arguments: seq<string>, currentDirectoryPath: string, entries: seq<string>, fs: FileSystem)
    returns (outcome: LegacyOutcome)
    ensures outcome == ScriptSpec(arguments, currentDirectoryPath, entries, fs)
  {
    if |arguments| <= 1 {
      return LegacyOutcome([UsageLine], 1);
    }
    var languages := LanguageCodes(arguments[1]);
    var errorOnMissing := ErrorOnMissingFlag in arguments;
    var script := new Script(languages);
    script.SearchDirectory(fs, currentDirectoryPath, entries);
    ghost var lines := ScriptSearchLines(fs, currentDirectoryPath, entries, languages);
    ghost var missing := AnyWarnings(fs, currentDirectoryPath, entries, languages);
    assert [] + lines == lines;
    assert script.output == lines && script.missingTranslations == missing;
    if script.missingTranslations && errorOnMissing {
      outcome := LegacyOutcome(script.output + [ErrorLine], 1);
    } else if script.missingTranslations {
      outcome := LegacyOutcome(script.output + [CompletedLine], 0);
    } else {
      outcome := LegacyOutcome(script.output + [AllPresentLine], 0);
    }
  }

  // ---------------------------------------------------------------------

  /** With no argument after the program name only the usage line is
      printed and the exit status is 1. */
  lemma ScriptUsage(arguments: seq<string>, currentDirectoryPath: string, entries: seq<string>, fs: FileSystem)
    requires |arguments| <= 1
    ensures ScriptSpec(arguments, currentDirectoryPath, entries, fs) == LegacyOutcome([UsageLine], 1)
  {
  }

  /** The script and `SwiftPolyglot.run`, given the same arguments after the
      program name, reach the same verdict and exit status and print the
      same number of lines. */
  lemma SameVerdictAsRun(arguments: seq<string>, isRunningFromGitHubActions: bool, currentDirectoryPath: string, entries: seq<string>, fs: FileSystem)
    requires |arguments| > 1 && arguments[0] != ErrorOnMissingFlag
    ensures var script := ScriptSpec(arguments, currentDirectoryPath, entries, fs);
      var run := RunSpec(arguments[1..], isRunningFromGitHubActions, currentDirectoryPath, entries, fs);
      script.exitStatus == run.exitStatus && |script.lines| == |run.lines| &&
      script.lines[|script.lines| - 1] == run.lines[|run.lines| - 1]
  {
    var languages := LanguageCodes(arguments[1]);
    assert arguments == [arguments[0]] + arguments[1..];
    assert ErrorOnMissing(arguments) == ErrorOnMissing(arguments[1..]);
    assert arguments[1..][0] == arguments[1];
    SameLineCount(Settings(ErrorOnMissing(arguments[1..]), isRunningFromGitHubActions), fs, currentDirectoryPath, entries, languages);
  }

  /** Both revisions print one line per unprocessable file and one per
      warning. */
  lemma {:induction false} SameLineCount(settings: Settings, fs: FileSystem, dirPath: string, entries: seq<string>, languages: seq<string>)
    ensures |ScriptSearchLines(fs, dirPath, entries, languages)| == |SearchLines(settings, fs, dirPath, entries, languages)|
  {
    if entries != [] {
      SameLineCount(settings, fs, dirPath, entries[1..], languages);
    }
  }

  /** Every warning ends by naming its file by the absolute URL, where
      `SwiftPolyglot.run` names the plain path. */
  lemma ScriptWarningNamesAbsoluteURL(fileURL: string, w: Warning)
    ensures HasSuffix(ScriptWarningLine(fileURL, w), " in file: file://" + fileURL)
  {
    var line := ScriptWarningLine(fileURL, w);
    var message := WarningMessage(w, AbsoluteString(fileURL));
    var tail := " in file: file://" + fileURL;
    assert tail == InFile(AbsoluteString(fileURL));
    assert line == "Warning: " + message;
    assert line[|line| - |message|..] == message;
    assert message[|message| - |tail|..] == tail;
    assert line[|line| - |tail|..] == message[|message| - |tail|..];
  }

  /** Only the enumerated entries ending in ".xcstrings" are read. */
  lemma {:induction false} ScriptReadsOnlyCatalogs(fs: FileSystem, other: FileSystem, dirPath: string, entries: seq<string>, languages: seq<string>)
    requires forall e :: e in entries && IsStringCatalogPath(e) ==> fs(FileURL(dirPath, e)) == other(FileURL(dirPath, e))
    ensures ScriptSearchLines(fs, dirPath, entries, languages) == ScriptSearchLines(other, dirPath, entries, languages)
    ensures AnyWarnings(fs, dirPath, entries, languages) == AnyWarnings(other, dirPath, entries, languages)
  {
    if entries != [] {
      ScriptReadsOnlyCatalogs(fs, other, dirPath, entries[1..], languages);
    }
  }

  /** The exit status is 1 exactly when there is no argument after the
      program name, or some checked file raised a warning and
      "--errorOnMissing" was given; the last line then says so. */
  lemma ScriptExitStatus(arguments: seq<string>, currentDirectoryPath: string, entries: seq<string>, fs: FileSystem)
    requires |arguments| > 1
    ensures var o := ScriptSpec(arguments, currentDirectoryPath, entries, fs);
      var missing := exists i :: (0 <= i < |entries| && IsStringCatalogPath(entries[i]) &&
        FileWarnings(fs, FileURL(currentDirectoryPath, entries[i]), LanguageCodes(arguments[1])) != []);
      |o.lines| > 0 &&
      (o.exitStatus == 1 <==> missing && ErrorOnMissing(arguments)) &&
      (o.lines[|o.lines| - 1] == AllPresentLine <==> !missing)
  {
    assert AllPresentLine[0] != CompletedLine[0] && AllPresentLine[0] != ErrorLine[0];
  }
}
