/** What `getMissingTranslations` and `getMissingTranslationsFromVariations`
    compute for one String Catalog, as functions, with the properties the
    checker promises proved about them. The imperative versions in module
    Core are proved equal to these functions. */
module Analysis {
  import opened Wrappers
  import opened Json
  import opened Catalog
  import opened Findings
  import opened PolyglotErrors

  /** The findings of a walk, or the error it threw. */
  type Scan = Result<seq<MissingTranslation>, SwiftPolyglotError>

  /** The findings of `a` followed by those of `b`; the first error wins. */
  function Then(a: Scan, b: Scan): Scan {
    match a
    case Err(e) => Err(e)
    case Ok(x) =>
      match b
      case Err(e) => Err(e)
      case Ok(y) => Ok(x + y)
  }

  /** A walk over `xs` in order, appending what `f` finds for each element
      and stopping at the first error, as a `for` loop that appends to a
      local array and lets a `throw` escape. */
  function Collect<T>(xs: seq<T>, f: T -> Scan): Scan {
    if xs == [] then Ok([]) else Then(f(xs[0]), Collect(xs[1..], f))
  }

  /** Two walks agree up to the order of their findings. */
  ghost predicate SameUpToOrder(a: Scan, b: Scan) {
    a.Ok? == b.Ok? && (a.Ok? ==> multiset(a.value) == multiset(b.value))
  }

  lemma AppendAssociative<X>(a: seq<X>, b: seq<X>, c: seq<X>)
    ensures (a + b) + c == a + (b + c)
  {
  }

  lemma ThenAssociative(a: Scan, b: Scan, c: Scan)
    ensures Then(Then(a, b), c) == Then(a, Then(b, c))
  {
    if a.Ok? && b.Ok? && c.Ok? {
      assert (a.value + b.value) + c.value == a.value + (b.value + c.value);
    }
  }

  lemma ThenNothing(b: Scan)
    ensures Then(Ok([]), b) == b
  {
    if b.Ok? {
      assert [] + b.value == b.value;
    }
  }

  /** Two walks together find nothing exactly when each finds nothing. */
  lemma ThenEmpty(a: Scan, b: Scan)
    ensures Then(a, b) == Ok([]) <==> a == Ok([]) && b == Ok([])
  {
    if a.Ok? && b.Ok? && Then(a, b) == Ok([]) {
      assert |a.value + b.value| == 0;
    }
    if a == Ok([]) && b == Ok([]) {
      assert a.value + b.value == [];
    }
  }

  lemma ThenSwap(a: Scan, b: Scan, c: Scan)
    ensures SameUpToOrder(Then(a, Then(b, c)), Then(b, Then(a, c)))
  {
    if a.Ok? && b.Ok? && c.Ok? {
      assert multiset(a.value + (b.value + c.value)) == multiset(b.value + (a.value + c.value));
    }
  }

  lemma CollectSingle<T>(x: T, f: T -> Scan)
    ensures Collect([x], f) == f(x)
  {
    assert [x][1..] == [];
    if f(x).Ok? {
      assert f(x).value + [] == f(x).value;
    }
  }

  /** A walk succeeds exactly when every step does. */
  lemma {:induction false} CollectOk<T>(xs: seq<T>, f: T -> Scan)
    ensures Collect(xs, f).Ok? <==> forall i :: 0 <= i < |xs| ==> f(xs[i]).Ok?
  {
    if xs != [] {
      CollectOk(xs[1..], f);
      assert forall i :: 1 <= i < |xs| ==> xs[i] == xs[1..][i - 1];
    }
  }

  /** The error of a walk is that of its first failing step. */
  lemma {:induction false} CollectStopsAtFirstError<T>(xs: seq<T>, f: T -> Scan, k: nat)
    requires k < |xs| && f(xs[k]).Err?
    requires forall j :: 0 <= j < k ==> f(xs[j]).Ok?
    ensures Collect(xs, f) == Err(f(xs[k]).error)
  {
    if k > 0 {
      assert forall j :: 0 <= j < k - 1 ==> xs[1..][j] == xs[j + 1];
      CollectStopsAtFirstError(xs[1..], f, k - 1);
    }
  }

  /** A walk over `xs + ys` reports what it finds in `xs` before what it
      finds in `ys`. */
  lemma {:induction false} CollectAppend<T>(xs: seq<T>, ys: seq<T>, f: T -> Scan)
    ensures Collect(xs + ys, f) == Then(Collect(xs, f), Collect(ys, f))
  {
    if xs == [] {
      assert xs + ys == ys;
      ThenNothing(Collect(ys, f));
    } else {
      assert (xs + ys)[0] == xs[0] && (xs + ys)[1..] == xs[1..] + ys;
      CollectAppend(xs[1..], ys, f);
      ThenAssociative(f(xs[0]), Collect(xs[1..], f), Collect(ys, f));
    }
  }

  /** Visiting the same elements in another order finds the same findings,
      as a multiset, and fails exactly when the first order fails. */
  lemma {:induction false} CollectPermutation<T>(xs: seq<T>, ys: seq<T>, f: T -> Scan)
    requires multiset(xs) == multiset(ys)
    ensures SameUpToOrder(Collect(xs, f), Collect(ys, f))
    decreases |xs|
  {
    if xs == [] {
      assert |ys| == |multiset(ys)| == 0;
    } else {
      var x := xs[0];
      assert x in multiset(ys);
      var k :| 0 <= k < |ys| && ys[k] == x;
      var front, back := ys[..k], ys[k + 1..];
      assert ys == front + ([x] + back);
      RemoveFirst(xs, ys, k);
      CollectPermutation(xs[1..], front + back, f);
      CollectAppend(front, [x] + back, f);
      assert ([x] + back)[0] == x && ([x] + back)[1..] == back;
      CollectAppend(front, back, f);
      ThenSwap(Collect(front, f), f(x), Collect(back, f));
    }
  }

  /** Taking the first element out of `xs` and the same element out of a
      permutation `ys` leaves permutations. */
  lemma RemoveFirst<T>(xs: seq<T>, ys: seq<T>, k: nat)
    requires multiset(xs) == multiset(ys)
    requires xs != [] && k < |ys| && ys[k] == xs[0]
    ensures multiset(xs[1..]) == multiset(ys[..k] + ys[k + 1..])
  {
    var front, back := ys[..k], ys[k + 1..];
    assert ys == front + [ys[k]] + back;
    assert xs == [xs[0]] + xs[1..];
    var rest, others := multiset(xs[1..]), multiset(front + back);
    assert multiset(xs) == multiset{xs[0]} + rest;
    assert multiset(ys) == multiset{xs[0]} + others;
    forall e ensures rest[e] == others[e] {
      assert (multiset{xs[0]} + rest)[e] == (multiset{xs[0]} + others)[e];
    }
  }

  /** A walk finds nothing exactly when no step finds anything. */
  lemma {:induction false} CollectEmpty<T>(xs: seq<T>, f: T -> Scan)
    ensures Collect(xs, f) == Ok([]) <==> forall i :: 0 <= i < |xs| ==> f(xs[i]) == Ok([])
  {
    if xs != [] {
      ThenEmpty(f(xs[0]), Collect(xs[1..], f));
      CollectEmpty(xs[1..], f);
      assert forall i :: 1 <= i < |xs| ==> xs[i] == xs[1..][i - 1];
    }
  }

  /** What a walk finds comes from its steps. */
  lemma {:induction false} CollectMembers<T>(xs: seq<T>, f: T -> Scan, m: MissingTranslation)
    requires Collect(xs, f).Ok?
    ensures m in Collect(xs, f).value ==> exists i :: 0 <= i < |xs| && f(xs[i]).Ok? && m in f(xs[i]).value
  {
    if xs != [] {
      CollectMembers(xs[1..], f, m);
      if m in Collect(xs[1..], f).value {
        var i :| 0 <= i < |xs[1..]| && f(xs[1..][i]).Ok? && m in f(xs[1..][i]).value;
        assert xs[1..][i] == xs[i + 1];
      }
    }
  }

  // ---------------------------------------------------------------------
  // getMissingTranslationsFromVariations

  /** The two variation kinds the checker understands. */
  datatype FormKind = Plural | Device

  predicate IsSupportedVariation(key: string) {
    key == "plural" || key == "device"
  }

  function FormCategory(kind: FormKind, form: string, language: string): Category {
    match kind
    case Plural => PluralMissingOrNotTranslated(form, language)
    case Device => DeviceMissingOrNotTranslated(form, language)
  }

  /** One plural form or device: a finding unless its `stringUnit.state` is
      exactly "translated" (a missing unit or state counts as not translated). */
  function FormFinding(kind: FormKind, form: (string, Dict), originalString: string, language: string, filePath: string): seq<MissingTranslation> {
    if IsTranslated(form.1) then []
    else [MissingTranslation(FormCategory(kind, form.0, language), filePath, originalString)]
  }

  function FormFindings(kind: FormKind, forms: seq<(string, Dict)>, originalString: string, language: string, filePath: string): seq<MissingTranslation> {
    if forms == [] then []
    else FormFinding(kind, forms[0], originalString, language, filePath) + FormFindings(kind, forms[1..], originalString, language, filePath)
  }

  /** One member of `variations`: its forms for "plural" and "device", the
      unsupported-variation error for any other key. */
  function VariationFinding(variation: (string, seq<(string, Dict)>), originalString: string, language: string, filePath: string): Scan {
    if variation.0 == "plural" then Ok(FormFindings(Plural, variation.1, originalString, language, filePath))
    else if variation.0 == "device" then Ok(FormFindings(Device, variation.1, originalString, language, filePath))
    else Err(UnsupportedVariation(variation.0))
  }

  function VariationFindings(variations: seq<(string, seq<(string, Dict)>)>, originalString: string, language: string, filePath: string): Scan {
    Collect(variations, v => VariationFinding(v, originalString, language, filePath))
  }

  // ---------------------------------------------------------------------
  // getMissingTranslations

  /** One requested language of one string. */
  function LanguageFindings(originalString: string, localizations: seq<(string, Dict)>, language: string, filePath: string): Scan {
    match Get(localizations, language)
    case None => Ok([MissingTranslation(MissingTranslationForLanguage(language), filePath, originalString)])
    case Some(dict) =>
      match AsDictOfDictsOfDicts(Get(dict, "variations"))
      case Some(variations) => VariationFindings(variations, originalString, language, filePath)
      case None => Ok(UnitFindings(dict, originalString, language, filePath))
  }

  /** A language without (usable) variations: a finding only when the unit's
      state is a string other than "translated". */
  function UnitFindings(dict: Dict, originalString: string, language: string, filePath: string): seq<MissingTranslation> {
    match UnitState(dict)
    case Some(state) =>
      if state != TranslatedState then [MissingTranslation(MissingOrNotTranslated(language), filePath, originalString)] else []
    case None => []
  }

  /** The requested languages of one string, in the order requested. */
  function LanguagesFindings(originalString: string, localizations: seq<(string, Dict)>, languages: seq<string>, filePath: string): Scan {
    Collect(languages, language => LanguageFindings(originalString, localizations, language, filePath))
  }

  /** One entry of `strings`: the all-languages finding when it has no
      `localizations` object of objects, its languages otherwise. */
  function StringFindings(entry: (string, Dict), languages: seq<string>, filePath: string): Scan {
    match Localizations(entry.1)
    case None => Ok([MissingTranslation(MissingTranslationForAllLanguages, filePath, entry.0)])
    case Some(localizations) => LanguagesFindings(entry.0, localizations, languages, filePath)
  }

  /** All strings of one catalog. */
  function FileFindings(strings: seq<(string, Dict)>, languages: seq<string>, filePath: string): Scan {
    Collect(strings, entry => StringFindings(entry, languages, filePath))
  }

  // ---------------------------------------------------------------------
  // A reference definition of a complete catalog

  ghost predicate FormsTranslated(forms: seq<(string, Dict)>) {
    forall j :: 0 <= j < |forms| ==> IsTranslated(forms[j].1)
  }

  /** The language is present and, when its variations can be read, they are
      all plural or device variations whose every form is translated;
      otherwise its unit's state is not a string other than "translated". */
  ghost predicate LanguageComplete(localizations: seq<(string, Dict)>, language: string) {
    match Get(localizations, language)
    case None => false
    case Some(dict) =>
      match AsDictOfDictsOfDicts(Get(dict, "variations"))
      case Some(variations) =>
        forall i :: 0 <= i < |variations| ==> IsSupportedVariation(variations[i].0) && FormsTranslated(variations[i].1)
      case None => UnitState(dict).None? || UnitState(dict) == Some(TranslatedState)
  }

  ghost predicate StringComplete(entry: (string, Dict), languages: seq<string>) {
    match Localizations(entry.1)
    case None => false
    case Some(localizations) => forall i :: 0 <= i < |languages| ==> LanguageComplete(localizations, languages[i])
  }

  ghost predicate CatalogComplete(strings: seq<(string, Dict)>, languages: seq<string>) {
    forall i :: 0 <= i < |strings| ==> StringComplete(strings[i], languages)
  }

  // ---------------------------------------------------------------------
  // Properties of the variation walk

  /** Every finding of a form walk names an untranslated form of the walk,
      with the walk's kind, language, string and file, and every
      untranslated form is named. */
  lemma {:induction false} FormFindingsMembers(kind: FormKind, forms: seq<(string, Dict)>, originalString: string, language: string, filePath: string, m: MissingTranslation)
    ensures m in FormFindings(kind, forms, originalString, language, filePath) <==>
      exists j :: 0 <= j < |forms| && !IsTranslated(forms[j].1) &&
        m == MissingTranslation(FormCategory(kind, forms[j].0, language), filePath, originalString)
  {
    if forms != [] {
      var here := FormFinding(kind, forms[0], originalString, language, filePath);
      var rest := FormFindings(kind, forms[1..], originalString, language, filePath);
      FormFindingsMembers(kind, forms[1..], originalString, language, filePath, m);
      if m in rest {
        var j :| 0 <= j < |forms[1..]| && !IsTranslated(forms[1..][j].1) &&
          m == MissingTranslation(FormCategory(kind, forms[1..][j].0, language), filePath, originalString);
        assert forms[1..][j] == forms[j + 1];
      }
      if exists j :: 0 <= j < |forms| && !IsTranslated(forms[j].1) &&
          m == MissingTranslation(FormCategory(kind, forms[j].0, language), filePath, originalString) {
        var j :| 0 <= j < |forms| && !IsTranslated(forms[j].1) &&
          m == MissingTranslation(FormCategory(kind, forms[j].0, language), filePath, originalString);
        if j > 0 {
          assert forms[1..][j - 1] == forms[j];
        }
      }
    }
  }

  /** With distinct form keys, as in a dictionary, each untranslated form is
      reported exactly once and a translated or absent form never. */
  lemma {:induction false} FormFindingsCount(kind: FormKind, forms: seq<(string, Dict)>, originalString: string, language: string, filePath: string, form: string)
    requires DistinctKeys(forms)
    ensures multiset(FormFindings(kind, forms, originalString, language, filePath))[MissingTranslation(FormCategory(kind, form, language), filePath, originalString)]
            == if Get(forms, form).Some? && !IsTranslated(Get(forms, form).value) then 1 else 0
  {
    if forms != [] {
      var target := MissingTranslation(FormCategory(kind, form, language), filePath, originalString);
      var here := FormFinding(kind, forms[0], originalString, language, filePath);
      var rest := forms[1..];
      assert DistinctKeys(rest) by {
        forall i, j | 0 <= i < j < |rest| ensures rest[i].0 != rest[j].0 {
          assert rest[i] == forms[i + 1] && rest[j] == forms[j + 1];
        }
      }
      FormFindingsCount(kind, rest, originalString, language, filePath, form);
      assert multiset(FormFindings(kind, forms, originalString, language, filePath))[target]
          == multiset(here)[target] + multiset(FormFindings(kind, rest, originalString, language, filePath))[target];
      if forms[0].0 == form {
        forall i | 0 <= i < |rest| ensures rest[i].0 != form {
          assert rest[i] == forms[i + 1];
        }
      }
    }
  }

  /** A form walk finds nothing exactly when every form is translated. */
  lemma {:induction false} FormFindingsEmpty(kind: FormKind, forms: seq<(string, Dict)>, originalString: string, language: string, filePath: string)
    ensures FormFindings(kind, forms, originalString, language, filePath) == [] <==> FormsTranslated(forms)
  {
    if forms != [] {
      FormFindingsEmpty(kind, forms[1..], originalString, language, filePath);
      assert forall j :: 1 <= j < |forms| ==> forms[j] == forms[1..][j - 1];
    }
  }

  /** The variation walk throws exactly when some key is neither "plural"
      nor "device", and then the error carries the first such key; when it
      does not throw, it reports only plural and device gaps in its language. */
  lemma VariationFindingsOutcome(variations: seq<(string, seq<(string, Dict)>)>, originalString: string, language: string, filePath: string)
    ensures VariationFindings(variations, originalString, language, filePath).Ok? <==>
      forall i :: 0 <= i < |variations| ==> IsSupportedVariation(variations[i].0)
    ensures forall k :: (0 <= k < |variations| && !IsSupportedVariation(variations[k].0) &&
      (forall j :: 0 <= j < k ==> IsSupportedVariation(variations[j].0))) ==>
        VariationFindings(variations, originalString, language, filePath) == Err(UnsupportedVariation(variations[k].0))
    ensures VariationFindings(variations, originalString, language, filePath).Ok? ==>
      forall m :: m in VariationFindings(variations, originalString, language, filePath).value ==>
        (m.category.PluralMissingOrNotTranslated? || m.category.DeviceMissingOrNotTranslated?) &&
        m.category.language == language && m.originalString == originalString && m.filePath == filePath
  {
    var f := v => VariationFinding(v, originalString, language, filePath);
    CollectOk(variations, f);
    forall k | 0 <= k < |variations| && !IsSupportedVariation(variations[k].0) &&
      (forall j :: 0 <= j < k ==> IsSupportedVariation(variations[j].0))
      ensures VariationFindings(variations, originalString, language, filePath) == Err(UnsupportedVariation(variations[k].0))
    {
      CollectStopsAtFirstError(variations, f, k);
    }
    if VariationFindings(variations, originalString, language, filePath).Ok? {
      forall m | m in VariationFindings(variations, originalString, language, filePath).value
        ensures (m.category.PluralMissingOrNotTranslated? || m.category.DeviceMissingOrNotTranslated?) &&
          m.category.language == language && m.originalString == originalString && m.filePath == filePath
      {
        CollectMembers(variations, f, m);
        var i :| 0 <= i < |variations| && f(variations[i]).Ok? && m in f(variations[i]).value;
        var kind := if variations[i].0 == "plural" then Plural else Device;
        FormFindingsMembers(kind, variations[i].1, originalString, language, filePath, m);
      }
    }
  }

  /** A variation walk finds nothing exactly when every key is supported and
      every form is translated; an empty `variations` finds nothing. */
  lemma VariationFindingsEmpty(variations: seq<(string, seq<(string, Dict)>)>, originalString: string, language: string, filePath: string)
    ensures VariationFindings(variations, originalString, language, filePath) == Ok([]) <==>
      forall i :: 0 <= i < |variations| ==> IsSupportedVariation(variations[i].0) && FormsTranslated(variations[i].1)
  {
    var f := v => VariationFinding(v, originalString, language, filePath);
    CollectEmpty(variations, f);
    forall i | 0 <= i < |variations|
      ensures f(variations[i]) == Ok([]) <==> IsSupportedVariation(variations[i].0) && FormsTranslated(variations[i].1)
    {
      FormFindingsEmpty(Plural, variations[i].1, originalString, language, filePath);
      FormFindingsEmpty(Device, variations[i].1, originalString, language, filePath);
    }
  }

  // ---------------------------------------------------------------------
  // Properties of the walk over languages

  /** What one language contributes: a missing language gives exactly the
      one missing-language finding; otherwise every finding names that
      language, and none is a missing-language or all-languages finding. */
  lemma LanguageFindingsShape(originalString: string, localizations: seq<(string, Dict)>, language: string, filePath: string)
    ensures Get(localizations, language).None? ==>
      LanguageFindings(originalString, localizations, language, filePath) ==
        Ok([MissingTranslation(MissingTranslationForLanguage(language), filePath, originalString)])
    ensures LanguageFindings(originalString, localizations, language, filePath).Ok? ==>
      forall m :: m in LanguageFindings(originalString, localizations, language, filePath).value ==>
        !m.category.MissingTranslationForAllLanguages? && m.category.language == language &&
        m.originalString == originalString && m.filePath == filePath &&
        (m.category.MissingTranslationForLanguage? <==> Get(localizations, language).None?)
  {
    match Get(localizations, language)
    case None =>
    case Some(dict) =>
      match AsDictOfDictsOfDicts(Get(dict, "variations"))
      case Some(variations) =>
        VariationFindingsOutcome(variations, originalString, language, filePath);
      case None =>
  }

  /** Without usable variations the state decides: a missing or non-object
      `stringUnit`, or a missing or non-string `state`, gives no finding; a
      string state gives exactly one finding iff it is not "translated". */
  lemma StringUnitFindings(originalString: string, localizations: seq<(string, Dict)>, language: string, filePath: string, dict: Dict)
    requires Get(localizations, language) == Some(dict)
    requires AsDictOfDictsOfDicts(Get(dict, "variations")).None?
    ensures var r := LanguageFindings(originalString, localizations, language, filePath);
      r.Ok? &&
      (UnitState(dict).None? ==> r.value == []) &&
      (UnitState(dict).Some? ==>
        (r.value == [] <==> UnitState(dict).value == TranslatedState) &&
        (r.value != [] ==> r.value == [MissingTranslation(MissingOrNotTranslated(language), filePath, originalString)]))
  {
  }

  /** Languages are visited in the order requested: the findings for the
      first `k` requested languages come before those for the others. */
  lemma LanguagesInRequestOrder(originalString: string, localizations: seq<(string, Dict)>, languages: seq<string>, filePath: string, k: nat)
    requires k <= |languages|
    ensures LanguagesFindings(originalString, localizations, languages, filePath) ==
      Then(LanguagesFindings(originalString, localizations, languages[..k], filePath),
           LanguagesFindings(originalString, localizations, languages[k..], filePath))
  {
    assert languages == languages[..k] + languages[k..];
    CollectAppend(languages[..k], languages[k..], language => LanguageFindings(originalString, localizations, language, filePath));
  }

  /** Each requested language absent from `localizations` is reported as
      missing once for each time it is requested; a present language never. */
  lemma {:induction false} MissingLanguageCount(originalString: string, localizations: seq<(string, Dict)>, languages: seq<string>, filePath: string, language: string)
    requires LanguagesFindings(originalString, localizations, languages, filePath).Ok?
    ensures multiset(LanguagesFindings(originalString, localizations, languages, filePath).value)
              [MissingTranslation(MissingTranslationForLanguage(language), filePath, originalString)]
            == if Get(localizations, language).None? then multiset(languages)[language] else 0
  {
    if languages != [] {
      var target := MissingTranslation(MissingTranslationForLanguage(language), filePath, originalString);
      var first := LanguageFindings(originalString, localizations, languages[0], filePath);
      var rest := LanguagesFindings(originalString, localizations, languages[1..], filePath);
      assert LanguagesFindings(originalString, localizations, languages, filePath) == Then(first, rest);
      MissingLanguageCount(originalString, localizations, languages[1..], filePath, language);
      LanguageFindingsShape(originalString, localizations, languages[0], filePath);
      assert languages == [languages[0]] + languages[1..];
      assert multiset(languages)[language] == (if languages[0] == language then 1 else 0) + multiset(languages[1..])[language];
      assert multiset(first.value + rest.value)[target] == multiset(first.value)[target] + multiset(rest.value)[target];
      if Get(localizations, languages[0]).Some? || languages[0] != language {
        assert target !in first.value;
      }
    }
  }

  /** Everything reported for a string with localizations names one of the
      requested languages and is never an all-languages finding. */
  lemma {:induction false} LanguagesFindingsShape(originalString: string, localizations: seq<(string, Dict)>, languages: seq<string>, filePath: string)
    requires LanguagesFindings(originalString, localizations, languages, filePath).Ok?
    ensures forall m :: m in LanguagesFindings(originalString, localizations, languages, filePath).value ==>
      !m.category.MissingTranslationForAllLanguages? && m.category.language in languages &&
      m.originalString == originalString && m.filePath == filePath
  {
    var f := language => LanguageFindings(originalString, localizations, language, filePath);
    forall m | m in LanguagesFindings(originalString, localizations, languages, filePath).value
      ensures !m.category.MissingTranslationForAllLanguages? && m.category.language in languages &&
        m.originalString == originalString && m.filePath == filePath
    {
      CollectMembers(languages, f, m);
      var i :| 0 <= i < |languages| && f(languages[i]).Ok? && m in f(languages[i]).value;
      LanguageFindingsShape(originalString, localizations, languages[i], filePath);
    }
  }

  // ---------------------------------------------------------------------
  // Properties of the walk over strings

  /** A string without a `localizations` object of objects gets exactly one
      finding, the all-languages one; any other string never gets it. */
  lemma AllLanguagesFinding(entry: (string, Dict), languages: seq<string>, filePath: string)
    ensures Localizations(entry.1).None? ==>
      StringFindings(entry, languages, filePath) == Ok([MissingTranslation(MissingTranslationForAllLanguages, filePath, entry.0)])
    ensures Localizations(entry.1).Some? && StringFindings(entry, languages, filePath).Ok? ==>
      forall m :: m in StringFindings(entry, languages, filePath).value ==> !m.category.MissingTranslationForAllLanguages?
  {
    if Localizations(entry.1).Some? && StringFindings(entry, languages, filePath).Ok? {
      LanguagesFindingsShape(entry.0, Localizations(entry.1).value, languages, filePath);
    }
  }

  /** In a catalog with distinct keys, a string is reported as untranslated
      in all languages exactly once if it lacks localizations, and never
      otherwise. */
  lemma {:induction false} AllLanguagesCount(strings: seq<(string, Dict)>, languages: seq<string>, filePath: string, originalString: string)
    requires DistinctKeys(strings)
    requires FileFindings(strings, languages, filePath).Ok?
    ensures multiset(FileFindings(strings, languages, filePath).value)[MissingTranslation(MissingTranslationForAllLanguages, filePath, originalString)]
            == if Get(strings, originalString).Some? && Localizations(Get(strings, originalString).value).None? then 1 else 0
  {
    if strings != [] {
      var target := MissingTranslation(MissingTranslationForAllLanguages, filePath, originalString);
      var first := StringFindings(strings[0], languages, filePath);
      var rest := strings[1..];
      assert FileFindings(strings, languages, filePath) == Then(first, FileFindings(rest, languages, filePath));
      assert DistinctKeys(rest) by {
        forall i, j | 0 <= i < j < |rest| ensures rest[i].0 != rest[j].0 {
          assert rest[i] == strings[i + 1] && rest[j] == strings[j + 1];
        }
      }
      AllLanguagesCount(rest, languages, filePath, originalString);
      AllLanguagesFinding(strings[0], languages, filePath);
      var all := FileFindings(strings, languages, filePath).value;
      assert multiset(all)[target] == multiset(first.value)[target] + multiset(FileFindings(rest, languages, filePath).value)[target];
      if strings[0].0 == originalString {
        forall i | 0 <= i < |rest| ensures rest[i].0 != originalString {
          assert rest[i] == strings[i + 1];
        }
      }
    }
  }

  /** A walk's error is the error of one of its steps. */
  lemma {:induction false} CollectErrorFromStep<T>(xs: seq<T>, f: T -> Scan, p: SwiftPolyglotError -> bool)
    requires forall i :: 0 <= i < |xs| && f(xs[i]).Err? ==> p(f(xs[i]).error)
    ensures Collect(xs, f).Err? ==> p(Collect(xs, f).error)
  {
    if xs != [] {
      assert forall i :: 0 <= i < |xs| - 1 ==> xs[1..][i] == xs[i + 1];
      CollectErrorFromStep(xs[1..], f, p);
    }
  }

  lemma LanguageErrorIsUnsupportedVariation(originalString: string, localizations: seq<(string, Dict)>, language: string, filePath: string)
    ensures LanguageFindings(originalString, localizations, language, filePath).Err? ==>
      LanguageFindings(originalString, localizations, language, filePath).error.UnsupportedVariation?
  {
    if Get(localizations, language).Some? {
      var dict := Get(localizations, language).value;
      if AsDictOfDictsOfDicts(Get(dict, "variations")).Some? {
        var variations := AsDictOfDictsOfDicts(Get(dict, "variations")).value;
        CollectErrorFromStep(variations, v => VariationFinding(v, originalString, language, filePath), (e: SwiftPolyglotError) => e.UnsupportedVariation?);
      }
    }
  }

  lemma StringErrorIsUnsupportedVariation(entry: (string, Dict), languages: seq<string>, filePath: string)
    ensures StringFindings(entry, languages, filePath).Err? ==>
      StringFindings(entry, languages, filePath).error.UnsupportedVariation?
  {
    if Localizations(entry.1).Some? {
      var localizations := Localizations(entry.1).value;
      forall i | 0 <= i < |languages|
        ensures LanguageFindings(entry.0, localizations, languages[i], filePath).Err? ==>
          LanguageFindings(entry.0, localizations, languages[i], filePath).error.UnsupportedVariation?
      {
        LanguageErrorIsUnsupportedVariation(entry.0, localizations, languages[i], filePath);
      }
      CollectErrorFromStep(languages, language => LanguageFindings(entry.0, localizations, language, filePath), (e: SwiftPolyglotError) => e.UnsupportedVariation?);
    }
  }

  /** The walk over a catalog throws only the unsupported-variation error. */
  lemma FileErrorIsUnsupportedVariation(strings: seq<(string, Dict)>, languages: seq<string>, filePath: string)
    ensures FileFindings(strings, languages, filePath).Err? ==>
      FileFindings(strings, languages, filePath).error.UnsupportedVariation?
  {
    forall i | 0 <= i < |strings|
      ensures StringFindings(strings[i], languages, filePath).Err? ==>
        StringFindings(strings[i], languages, filePath).error.UnsupportedVariation?
    {
      StringErrorIsUnsupportedVariation(strings[i], languages, filePath);
    }
    CollectErrorFromStep(strings, entry => StringFindings(entry, languages, filePath), (e: SwiftPolyglotError) => e.UnsupportedVariation?);
  }

  /** The index of the first failing step of a walk that has one. */
  function FirstFailure<T>(xs: seq<T>, f: T -> Scan): (k: nat)
    requires exists i :: 0 <= i < |xs| && f(xs[i]).Err?
    ensures k < |xs| && f(xs[k]).Err?
    ensures forall j :: 0 <= j < k ==> f(xs[j]).Ok?
  {
    if f(xs[0]).Err? then 0
    else
      assert exists i :: 0 <= i < |xs[1..]| && f(xs[1..][i]).Err? by {
        var i :| 0 <= i < |xs| && f(xs[i]).Err?;
        assert xs[1..][i - 1] == xs[i];
      }
      1 + FirstFailure(xs[1..], f)
  }

  /** The order in which a dictionary iterates the strings of a catalog does
      not change whether the walk throws, nor the findings as a multiset. */
  lemma StringOrderIrrelevant(strings: seq<(string, Dict)>, reordered: seq<(string, Dict)>, languages: seq<string>, filePath: string)
    requires multiset(strings) == multiset(reordered)
    ensures SameUpToOrder(FileFindings(strings, languages, filePath), FileFindings(reordered, languages, filePath))
  {
    CollectPermutation(strings, reordered, entry => StringFindings(entry, languages, filePath));
  }

  // ---------------------------------------------------------------------
  // No findings exactly for complete catalogs

  lemma LanguageEmptyIffComplete(originalString: string, localizations: seq<(string, Dict)>, language: string, filePath: string)
    ensures LanguageFindings(originalString, localizations, language, filePath) == Ok([]) <==> LanguageComplete(localizations, language)
  {
    match Get(localizations, language)
    case None =>
    case Some(dict) =>
      match AsDictOfDictsOfDicts(Get(dict, "variations"))
      case Some(variations) =>
        VariationFindingsEmpty(variations, originalString, language, filePath);
      case None =>
  }

  lemma StringEmptyIffComplete(entry: (string, Dict), languages: seq<string>, filePath: string)
    ensures StringFindings(entry, languages, filePath) == Ok([]) <==> StringComplete(entry, languages)
  {
    match Localizations(entry.1)
    case None =>
    case Some(localizations) =>
      CollectEmpty(languages, language => LanguageFindings(entry.0, localizations, language, filePath));
      forall i | 0 <= i < |languages| {
        LanguageEmptyIffComplete(entry.0, localizations, languages[i], filePath);
      }
  }

  /** A catalog yields no finding and no error exactly when it is complete:
      every string has localizations and every requested language of every
      string is complete. */
  lemma FileEmptyIffComplete(strings: seq<(string, Dict)>, languages: seq<string>, filePath: string)
    ensures FileFindings(strings, languages, filePath) == Ok([]) <==> CatalogComplete(strings, languages)
  {
    CollectEmpty(strings, entry => StringFindings(entry, languages, filePath));
    forall i | 0 <= i < |strings| {
      StringEmptyIffComplete(strings[i], languages, filePath);
    }
  }
}
