/** The shape of a String Catalog (`.xcstrings`) document, as every revision
    of the checker reads it:

      { "strings": { <original string>: { "localizations": { <language>:
          { "stringUnit": { "state": ... } }
          or { "variations": { "plural" | "device": { <form>: { "stringUnit": ... } } } } } } } }
*/
module Catalog {
  import opened Wrappers
  import opened Json
  import opened Text

  const CatalogExtension: string := ".xcstrings"

  /** The contents of every file, by the path of its URL: the parsed JSON
      document, or `None` when the file cannot be read or is not JSON. */
  type FileSystem = string -> Option<JValue>

  /** Only files with this suffix are checked. */
  predicate IsStringCatalogPath(path: string) {
    HasSuffix(path, CatalogExtension)
  }

  /** The `strings` member of a file's contents, cast to
      `[String: [String: Any]]`. `doc` is `None` when the file cannot be read
      or is not JSON; the result is `None` (the file cannot be processed) when,
      in addition, the document is not an object, has no `strings`, or some
      entry of `strings` is not an object. */
  function CatalogStrings(doc: Option<JValue>): Option<seq<(string, Dict)>> {
    if doc.Some? && doc.value.JObject? then AsDictOfDicts(Get(doc.value.members, "strings")) else None
  }

  /** `translations["localizations"] as? [String: [String: Any]]` */
  function Localizations(translations: Dict): Option<seq<(string, Dict)>> {
    AsDictOfDicts(Get(translations, "localizations"))
  }

  /** `dict["stringUnit"] as? [String: Any]`, then its `["state"] as? String`. */
  function UnitState(dict: Dict): Option<string> {
    match AsDict(Get(dict, "stringUnit"))
    case None => None
    case Some(unit) => AsString(Get(unit, "state"))
  }

  /** The one state that counts as complete. */
  const TranslatedState: string := "translated"

  predicate IsTranslated(dict: Dict) {
    UnitState(dict) == Some(TranslatedState)
  }

  /** The line printed for a file that cannot be processed, tagged as a
      warning annotation inside a GitHub Action. */
  function CouldNotProcessLine(isRunningInAGitHubAction: bool, path: string): (line: string)
    ensures HasSuffix(line, "Could not process file at path: " + path)
    ensures HasPrefix(line, "::warning file=" + path + "::") <==> isRunningInAGitHubAction
    ensures !isRunningInAGitHubAction ==> line == "Could not process file at path: " + path
    ensures isRunningInAGitHubAction ==>
      |line| == |"::warning file=" + path + "::"| + |"Could not process file at path: " + path|
  {
    var plain := "Could not process file at path: " + path;
    if isRunningInAGitHubAction then
      var annotated := "::warning file=" + path + "::" + plain;
      assert annotated[|annotated| - |plain|..] == plain;
      annotated
    else
      assert plain[0] == 'C' && ("::warning file=" + path + "::")[0] == ':';
      plain
  }

  /** A single entry of `strings` that is not an object rejects the whole file. */
  lemma NonObjectEntryRejectsFile(top: Dict, entries: Dict, i: nat)
    requires Get(top, "strings") == Some(JObject(entries))
    requires i < |entries| && !entries[i].1.JObject?
    ensures CatalogStrings(Some(JObject(top))) == None
  {
  }
}
