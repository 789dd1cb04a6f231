/** Extension-based language detection (language_detector.py): the lower-cased
    extension of a path, as `os.path.splitext` finds it, looked up in a fixed table. */
module Language {

  import opened Wrappers
  import opened Text

  /** `EXT_TO_LANG`. */
  const ExtToLang: map<string, string> := map[
    ".py" := "python",
    ".js" := "javascript", ".jsx" := "javascript",
    ".ts" := "typescript", ".tsx" := "typescript",
    ".java" := "java",
    ".cpp" := "cpp", ".cc" := "cpp", ".cxx" := "cpp",
    ".c" := "c", ".h" := "c",
    ".hpp" := "cpp",
    ".rs" := "rust",
    ".go" := "go"]

  /** The extensions that name each language: the table read the other way. */
  function ExtensionsOf(lang: string): set<string> {
    match lang
    case "python" => {".py"}
    case "javascript" => {".js", ".jsx"}
    case "typescript" => {".ts", ".tsx"}
    case "java" => {".java"}
    case "cpp" => {".cpp", ".cc", ".cxx", ".hpp"}
    case "c" => {".c", ".h"}
    case "rust" => {".rs"}
    case "go" => {".go"}
    case _ => {}
  }

  /** The lower-cased extension the lookup uses. */
  function LowerExt(path: string): string {
    Lower(SplitExt(path).1)
  }

  /** `detect_language`. */
  function DetectLanguage(path: string): (r: Option<string>)
    ensures r.Some? ==> r.value in {"python", "javascript", "typescript", "java", "cpp", "c", "rust", "go"}
    ensures r.Some? <==> LowerExt(path) in ExtToLang
  {
    var ext := LowerExt(path);
    if ext in ExtToLang then Some(ExtToLang[ext]) else None
  }

  /** The table and its inverse agree: a path is detected as `lang` exactly when its
      lower-cased extension is one of the extensions of `lang`. */
  lemma DetectMatchesExtensions(path: string, lang: string)
    ensures DetectLanguage(path) == Some(lang) <==> LowerExt(path) in ExtensionsOf(lang)
  {
    var ext := LowerExt(path);
    if DetectLanguage(path) == Some(lang) {
      assert ext in ExtToLang && ExtToLang[ext] == lang;
    }
  }

  /** `is_supported_extension`: a language is detected. */
  function IsSupportedExtension(path: string): (r: bool)
    ensures r <==> exists lang :: DetectLanguage(path) == Some(lang) && LowerExt(path) in ExtensionsOf(lang)
  {
    if DetectLanguage(path).Some? then
      DetectMatchesExtensions(path, DetectLanguage(path).value);
      true
    else
      assert forall lang :: DetectLanguage(path) != Some(lang);
      false
  }

  /** Lower-casing leaves a dot and the dot-free rest of an extension where they were. */
  lemma LowerDotExt(ext: string)
    ensures Lower("." + ext) == "." + Lower(ext)
  {
    assert ("." + ext)[1..] == ext;
  }

  /** For a file name `<name>.<ext>` the detected language depends on the letters of
      `ext` alone, whatever their case: `A.PY` and `a.py` are both Python. */
  lemma DetectIgnoresCase(name: string, ext: string)
    requires |name| > 0 && '.' !in name && '/' !in name && '.' !in ext && '/' !in ext
    ensures LowerExt(name + "." + ext) == "." + Lower(ext)
    ensures DetectLanguage(name + "." + ext) == DetectLanguage(name + "." + Lower(ext))
  {
    SplitExtOfJoin(name, ext);
    LowerDotExt(ext);
    LowerKeepsOther(ext, '.');
    LowerKeepsOther(ext, '/');
    SplitExtOfJoin(name, Lower(ext));
    LowerIdempotent(ext);
    LowerDotExt(Lower(ext));
  }
}
