/** What a whole run of `SwiftPolyglotCore` promises: which files it reads,
    how the per-file findings are merged, when it throws, and that the order
    of the files (which the task group does not fix) changes neither the
    verdict nor the findings as a multiset. */
module RunProperties {
  import opened Wrappers
  import opened Json
  import opened Catalog
  import opened Findings
  import opened PolyglotErrors
  import opened Analysis
  import opened Core

  /** The strings `extractStrings` returns for a file. */
  function FileStrings(fs: FileSystem, fileURL: string): seq<(string, Dict)> {
    match CatalogStrings(fs(fileURL))
    case None => []
    case Some(strings) => strings
  }

  /** The findings of one catalog, or the error its walk throws. */
  function FileScan(languageCodes: seq<string>, fs: FileSystem, fileURL: string): Scan {
    FileFindings(FileStrings(fs, fileURL), languageCodes, fileURL)
  }

  /** The findings of all catalogs of a run, merged in the order the tasks
      are awaited. */
  function AllFindings(core: SwiftPolyglotCore, fs: FileSystem): Scan {
    Collect(SwiftPolyglotCore.GetStringCatalogURLs(core.filePaths), u => FileScan(core.languageCodes, fs, u))
  }

  lemma CatalogReportScan(core: SwiftPolyglotCore, fs: FileSystem, fileURL: string)
    ensures core.CatalogReport(fs, fileURL).scan == FileScan(core.languageCodes, fs, fileURL)
  {
  }

  /** The merged findings are the concatenation of the per-file lists, with
      nothing removed or deduplicated, and the first error is the run's. */
  lemma {:induction false} AggregateScan(core: SwiftPolyglotCore, fs: FileSystem, urls: seq<string>)
    ensures core.Aggregate(fs, urls).scan == Collect(urls, u => FileScan(core.languageCodes, fs, u))
  {
    if urls != [] {
      AggregateScan(core, fs, urls[1..]);
      CatalogReportScan(core, fs, urls[0]);
    }
  }

  /** The tasks of `front + back` print and find what the tasks of `front`
      print and find, followed by what those of `back` do. */
  lemma {:induction false} AggregateInOrder(core: SwiftPolyglotCore, fs: FileSystem, front: seq<string>, back: seq<string>)
    ensures core.Aggregate(fs, front + back) == Chain(core.Aggregate(fs, front), core.Aggregate(fs, back))
  {
    if front == [] {
      assert front + back == back;
      ChainNothing(core.Aggregate(fs, back));
    } else {
      assert (front + back)[0] == front[0] && (front + back)[1..] == front[1..] + back;
      AggregateInOrder(core, fs, front[1..], back);
      ChainAssociative(core.CatalogReport(fs, front[0]), core.Aggregate(fs, front[1..]), core.Aggregate(fs, back));
    }
  }

  /** Any error of the merged walk is an unsupported variation. */
  lemma AllFindingsErrorIsUnsupportedVariation(core: SwiftPolyglotCore, fs: FileSystem)
    ensures AllFindings(core, fs).Err? ==> AllFindings(core, fs).error.UnsupportedVariation?
  {
    if AllFindings(core, fs).Err? {
      var urls := SwiftPolyglotCore.GetStringCatalogURLs(core.filePaths);
      var f := u => FileScan(core.languageCodes, fs, u);
      CollectOk(urls, f);
      var k := FirstFailure(urls, f);
      CollectStopsAtFirstError(urls, f, k);
      FileErrorIsUnsupportedVariation(FileStrings(fs, urls[k]), core.languageCodes, urls[k]);
    }
  }

  /** The verdict of `run`: it throws the missing-translations error exactly
      when something was found and the flag is set, reports missing
      translations when something was found without the flag, reports all
      present exactly when nothing was found, and otherwise rethrows the
      unsupported-variation error of the walk. */
  lemma Verdict(core: SwiftPolyglotCore, fs: FileSystem)
    ensures var r := core.RunSpec(fs).result; var all := AllFindings(core, fs);
      (r == Err(MissingTranslations) <==> all.Ok? && all.value != [] && core.logsErrorOnMissingTranslation) &&
      (r == Ok(CompletedWithMissingTranslations) <==> all.Ok? && all.value != [] && !core.logsErrorOnMissingTranslation) &&
      (r == Ok(AllTranslationsPresent) <==> all == Ok([])) &&
      (all.Err? ==> r == Err(all.error) && all.error.UnsupportedVariation?)
  {
    AggregateScan(core, fs, SwiftPolyglotCore.GetStringCatalogURLs(core.filePaths));
    AllFindingsErrorIsUnsupportedVariation(core, fs);
  }

  /** The task of one catalog prints the line of each finding it returns. */
  lemma CatalogReportPrintsFindings(core: SwiftPolyglotCore, fs: FileSystem, fileURL: string, m: MissingTranslation)
    requires core.CatalogReport(fs, fileURL).scan.Ok?
    requires m in core.CatalogReport(fs, fileURL).scan.value
    ensures core.RenderFinding(m) in core.CatalogReport(fs, fileURL).lines
  {
    var extraction := SwiftPolyglotCore.ExtractStrings(fs, fileURL, core.isRunningInAGitHubAction);
    RenderedAfter(core, extraction.lines, FileFindings(extraction.strings, core.languageCodes, fileURL).value, m);
  }

  lemma RenderedAfter(core: SwiftPolyglotCore, printed: seq<string>, found: seq<MissingTranslation>, m: MissingTranslation)
    requires m in found
    ensures core.RenderFinding(m) in printed + core.RenderFindings(found)
  {
    var k :| 0 <= k < |found| && found[k] == m;
    assert (printed + core.RenderFindings(found))[|printed| + k] == core.RenderFinding(m);
  }

  /** The tasks print the line of every finding they return. */
  lemma {:induction false} AggregatePrintsFindings(core: SwiftPolyglotCore, fs: FileSystem, urls: seq<string>)
    requires core.Aggregate(fs, urls).scan.Ok?
    ensures forall m :: m in core.Aggregate(fs, urls).scan.value ==> core.RenderFinding(m) in core.Aggregate(fs, urls).lines
  {
    if urls != [] {
      var head := core.CatalogReport(fs, urls[0]);
      var rest := core.Aggregate(fs, urls[1..]);
      assert head.scan.Ok? && rest.scan.Ok?;
      assert core.Aggregate(fs, urls) == Report(head.lines + rest.lines, Ok(head.scan.value + rest.scan.value));
      AggregatePrintsFindings(core, fs, urls[1..]);
      forall m | m in head.scan.value
        ensures core.RenderFinding(m) in head.lines
      {
        CatalogReportPrintsFindings(core, fs, urls[0], m);
      }
    }
  }

  /** Whatever the verdict, a run whose walk does not throw has printed the
      line of every finding, and a run that returns has printed them all
      before its verdict line; with the flag set they are printed before
      `missingTranslations` is thrown. */
  lemma FindingsPrinted(core: SwiftPolyglotCore, fs: FileSystem)
    requires AllFindings(core, fs).Ok?
    ensures forall m :: m in AllFindings(core, fs).value ==> core.RenderFinding(m) in core.RunSpec(fs).lines
    ensures core.RunSpec(fs).result.Ok? ==>
      forall m :: m in AllFindings(core, fs).value ==>
        core.RenderFinding(m) in core.RunSpec(fs).lines[..|core.RunSpec(fs).lines| - 1]
  {
    var urls := SwiftPolyglotCore.GetStringCatalogURLs(core.filePaths);
    var all := core.Aggregate(fs, urls);
    AggregateScan(core, fs, urls);
    AggregatePrintsFindings(core, fs, urls);
    if core.RunSpec(fs).result.Ok? {
      var lines := core.RunSpec(fs).lines;
      assert lines[..|lines| - 1] == all.lines;
    }
  }

  /** A run that does not throw prints its verdict last. */
  lemma VerdictPrintedLast(core: SwiftPolyglotCore, fs: FileSystem)
    requires core.RunSpec(fs).result.Ok?
    ensures var o := core.RunSpec(fs);
      |o.lines| > 0 && o.lines[|o.lines| - 1] == VerdictLine(o.result.value)
  {
  }

  /** `run` reports all translations present, and does not throw, exactly
      when every catalog among the paths is complete; a catalog that cannot
      be processed counts as complete, since it contributes nothing. */
  lemma PassIffComplete(core: SwiftPolyglotCore, fs: FileSystem)
    ensures core.RunSpec(fs).result == Ok(AllTranslationsPresent) <==>
      forall u :: u in SwiftPolyglotCore.GetStringCatalogURLs(core.filePaths) ==>
        CatalogComplete(FileStrings(fs, u), core.languageCodes)
  {
    var urls := SwiftPolyglotCore.GetStringCatalogURLs(core.filePaths);
    Verdict(core, fs);
    CollectEmpty(urls, u => FileScan(core.languageCodes, fs, u));
    forall i | 0 <= i < |urls|
      ensures FileScan(core.languageCodes, fs, urls[i]) == Ok([]) <==> CatalogComplete(FileStrings(fs, urls[i]), core.languageCodes)
    {
      FileEmptyIffComplete(FileStrings(fs, urls[i]), core.languageCodes, urls[i]);
    }
  }

  /** With the flag set, a run over catalogs without unsupported variations
      throws the missing-translations error as soon as one catalog is
      incomplete. */
  lemma GapsThrowWithFlag(core: SwiftPolyglotCore, fs: FileSystem, u: string)
    requires core.logsErrorOnMissingTranslation
    requires AllFindings(core, fs).Ok?
    requires u in SwiftPolyglotCore.GetStringCatalogURLs(core.filePaths)
    requires !CatalogComplete(FileStrings(fs, u), core.languageCodes)
    ensures core.RunSpec(fs).result == Err(MissingTranslations)
  {
    Verdict(core, fs);
    PassIffComplete(core, fs);
  }

  /** The first catalog whose walk throws ends the run with its error. */
  lemma FirstUnsupportedVariationEndsRun(core: SwiftPolyglotCore, fs: FileSystem, k: nat)
    requires k < |SwiftPolyglotCore.GetStringCatalogURLs(core.filePaths)|
    requires FileScan(core.languageCodes, fs, SwiftPolyglotCore.GetStringCatalogURLs(core.filePaths)[k]).Err?
    requires forall j :: 0 <= j < k ==> FileScan(core.languageCodes, fs, SwiftPolyglotCore.GetStringCatalogURLs(core.filePaths)[j]).Ok?
    ensures core.RunSpec(fs).result == Err(FileScan(core.languageCodes, fs, SwiftPolyglotCore.GetStringCatalogURLs(core.filePaths)[k]).error)
    ensures core.RunSpec(fs).result.error.UnsupportedVariation?
  {
    var urls := SwiftPolyglotCore.GetStringCatalogURLs(core.filePaths);
    CollectStopsAtFirstError(urls, u => FileScan(core.languageCodes, fs, u), k);
    Verdict(core, fs);
  }

  /** A file that cannot be processed prints its warning and contributes no
      finding. */
  lemma UnprocessableFileContributesNothing(core: SwiftPolyglotCore, fs: FileSystem, fileURL: string)
    requires CatalogStrings(fs(fileURL)).None?
    ensures core.CatalogReport(fs, fileURL) == Report([CouldNotProcessLine(core.isRunningInAGitHubAction, fileURL)], Ok([]))
  {
    assert core.RenderFindings([]) == [];
  }

  lemma {:induction false} AggregateReadsOnly(core: SwiftPolyglotCore, fs: FileSystem, other: FileSystem, urls: seq<string>)
    requires forall u :: u in urls ==> fs(u) == other(u)
    ensures core.Aggregate(fs, urls) == core.Aggregate(other, urls)
  {
    if urls != [] {
      AggregateReadsOnly(core, fs, other, urls[1..]);
    }
  }

  /** Only the catalogs among the paths are read: files that are not given,
      or do not end in ".xcstrings", cannot change what a run prints or
      returns. */
  lemma OnlyCatalogsAreRead(core: SwiftPolyglotCore, fs: FileSystem, other: FileSystem)
    requires forall p :: p in core.filePaths && IsStringCatalogPath(p) ==> fs(p) == other(p)
    ensures core.RunSpec(fs) == core.RunSpec(other)
  {
    var urls := SwiftPolyglotCore.GetStringCatalogURLs(core.filePaths);
    forall u | u in urls ensures fs(u) == other(u) {
      assert multiset(urls)[u] > 0;
    }
    AggregateReadsOnly(core, fs, other, urls);
  }

  /** The order of the paths, like the order in which the tasks finish,
      changes neither whether a run throws an unsupported variation, nor
      the findings as a multiset, nor the verdict. */
  lemma FileOrderIrrelevant(core: SwiftPolyglotCore, fs: FileSystem, paths: seq<string>)
    requires multiset(paths) == multiset(core.filePaths)
    ensures SameUpToOrder(AllFindings(core, fs), AllFindings(core.(filePaths := paths), fs))
    ensures var r, s := core.RunSpec(fs).result, core.(filePaths := paths).RunSpec(fs).result;
      (r.Err? && r.error.UnsupportedVariation? <==> s.Err? && s.error.UnsupportedVariation?) &&
      (!(r.Err? && r.error.UnsupportedVariation?) ==> r == s)
  {
    var other := core.(filePaths := paths);
    var urls := SwiftPolyglotCore.GetStringCatalogURLs(core.filePaths);
    var reordered := SwiftPolyglotCore.GetStringCatalogURLs(paths);
    assert forall p :: multiset(urls)[p] == multiset(reordered)[p];
    assert multiset(urls) == multiset(reordered);
    CollectPermutation(urls, reordered, u => FileScan(core.languageCodes, fs, u));
    Verdict(core, fs);
    Verdict(other, fs);
    var a, b := AllFindings(core, fs), AllFindings(other, fs);
    if a.Ok? {
      assert |a.value| == |multiset(a.value)| == |multiset(b.value)| == |b.value|;
    }
  }

  // ---------------------------------------------------------------------
  // Worked examples

  function Unit(state: string): JValue {
    JObject([("stringUnit", JObject([("state", JString(state))]))])
  }

  /** One catalog with the string "Hello", translated in "en" only. */
  function HelloCatalog(): JValue {
    JObject([("strings", JObject([("Hello", JObject([("localizations", JObject([("en", Unit("translated"))]))]))]))])
  }

  /** Requesting "en" and "de" of that catalog: exactly one finding, "de" is
      missing, and the run completes with missing translations. */
  lemma HelloMissingGerman()
    ensures var core := SwiftPolyglotCore(["Localizable.xcstrings"], ["en", "de"], false, false);
      AllFindings(core, p => if p == "Localizable.xcstrings" then Some(HelloCatalog()) else None) ==
        Ok([MissingTranslation(MissingTranslationForLanguage("de"), "Localizable.xcstrings", "Hello")]) &&
      core.RunSpec(p => if p == "Localizable.xcstrings" then Some(HelloCatalog()) else None).result ==
        Ok(CompletedWithMissingTranslations)
  {
    var core := SwiftPolyglotCore(["Localizable.xcstrings"], ["en", "de"], false, false);
    var fs: FileSystem := p => if p == "Localizable.xcstrings" then Some(HelloCatalog()) else None;
    var path := "Localizable.xcstrings";
    assert IsStringCatalogPath(path) by {
      assert path[|path| - |CatalogExtension|..] == CatalogExtension;
    }
    assert SwiftPolyglotCore.GetStringCatalogURLs(core.filePaths) == [path];
    var en := [("stringUnit", JObject([("state", JString("translated"))]))];
    var entry := ("Hello", [("localizations", JObject([("en", JObject(en))]))]);
    assert Get(HelloCatalog().members, "strings") == Some(JObject([("Hello", JObject(entry.1))]));
    assert FileStrings(fs, path) == [entry];
    var locs := [("en", en)];
    assert Get(entry.1, "localizations") == Some(JObject([("en", JObject(en))]));
    var cast := Dicts([("en", JObject(en))]);
    assert cast.Some? && |cast.value| == 1 && cast.value[0] == locs[0];
    assert cast.value == locs;
    assert Localizations(entry.1) == Some(locs);
    var missing := MissingTranslation(MissingTranslationForLanguage("de"), path, "Hello");
    var g := language => LanguageFindings("Hello", locs, language, path);
    assert g("en") == Ok([]);
    assert g("de") == Ok([missing]);
    assert ["en", "de"][1..] == ["de"];
    CollectSingle("de", g);
    ThenNothing(Ok([missing]));
    assert LanguagesFindings("Hello", locs, ["en", "de"], path) == Ok([missing]);
    assert StringFindings(entry, core.languageCodes, path) == Ok([missing]);
    CollectSingle(entry, e => StringFindings(e, core.languageCodes, path));
    CollectSingle(path, u => FileScan(core.languageCodes, fs, u));
    Verdict(core, fs);
  }

  /** A plural variation with three forms, one of them pending: exactly one
      finding, naming that form. */
  lemma OnePendingPluralForm()
    ensures var forms := [("one", [("stringUnit", JObject([("state", JString("translated"))]))]),
                          ("few", [("stringUnit", JObject([("state", JString("pending"))]))]),
                          ("other", [("stringUnit", JObject([("state", JString("translated"))]))])];
      VariationFindings([("plural", forms)], "%d files", "ca", "App.xcstrings") ==
        Ok([MissingTranslation(PluralMissingOrNotTranslated("few", "ca"), "App.xcstrings", "%d files")])
  {
    var forms := [("one", [("stringUnit", JObject([("state", JString("translated"))]))]),
                  ("few", [("stringUnit", JObject([("state", JString("pending"))]))]),
                  ("other", [("stringUnit", JObject([("state", JString("translated"))]))])];
    var translated := [("stringUnit", JObject([("state", JString("translated"))]))];
    var pending := [("stringUnit", JObject([("state", JString("pending"))]))];
    assert UnitState(translated) == Some("translated") && IsTranslated(translated);
    assert UnitState(pending) == Some("pending") && !IsTranslated(pending);
    assert forms[1..][1..] == [forms[2]];
    assert FormFindings(Plural, [forms[2]], "%d files", "ca", "App.xcstrings") == [];
    assert FormFindings(Plural, forms, "%d files", "ca", "App.xcstrings") ==
      [MissingTranslation(PluralMissingOrNotTranslated("few", "ca"), "App.xcstrings", "%d files")];
    CollectSingle(("plural", forms), v => VariationFinding(v, "%d files", "ca", "App.xcstrings"));
  }

  /** An "ordinal" variation makes the walk of its language throw the
      unsupported-variation error carrying "ordinal" (which
      `FirstUnsupportedVariationEndsRun` carries on to the run). */
  lemma OrdinalVariationThrows(dict: Dict)
    requires AsDictOfDictsOfDicts(Get(dict, "variations")) == Some([("ordinal", [])])
    ensures LanguageFindings("Rank", [("en", dict)], "en", "App.xcstrings") == Err(UnsupportedVariation("ordinal"))
  {
    assert !IsSupportedVariation("ordinal");
    VariationFindingsOutcome([("ordinal", [])], "Rank", "en", "App.xcstrings");
  }
}
