/** The multi-language coordinator (`MultiLanguageParser`, multi_parser.py): it routes
    each file to a parser by extension and configuration, merges what the parser
    returns and indexes into its own accumulator, falls back to a legacy parser when the
    chosen one raises, and collects a directory's files by extension before running the
    first pass over them and, with `build_index`, the second pass. */
module Coordinator {

  import opened Wrappers
  import opened Text
  import opened Schema
  import opened Syntax
  import opened AdapterState
  import opened Language
  import Py = PythonAdapter
  import Js = JsAdapter
  import Ts = TsParser
  import Java = JavaAdapter
  import Cpp = CppAdapter
  import Rust = RustAdapter
  import Go = GoAdapter

  /** The constructor arguments. */
  datatype Config = Config(useAstGrep: bool, languages: set<string>, fallback: bool)

  const DefaultLanguages: set<string> := {"python", "javascript", "typescript"}

  /** `__init__`: a missing or empty language list means the default set. */
  function NewConfig(useAstGrep: bool, languages: Option<seq<string>>, fallback: bool): (c: Config)
    ensures c.useAstGrep == useAstGrep && c.fallback == fallback
    ensures (languages.None? || languages.value == []) ==> c.languages == DefaultLanguages
    ensures languages.Some? && languages.value != [] ==> forall l :: l in c.languages <==> l in languages.value
  {
    match languages
    case None => Config(useAstGrep, DefaultLanguages, fallback)
    case Some(ls) =>
      if ls == [] then Config(useAstGrep, DefaultLanguages, fallback)
      else Config(useAstGrep, (set l | l in ls), fallback)
  }

  /** The parsers the coordinator can construct. */
  datatype Parser =
    | PyAdapter
    | LegacyPy
    | JsAdapter(tsx: bool)
    | LegacyTs
    | JavaAdapter
    | CppAdapter
    | RustAdapter
    | GoAdapter

  predicate IsAdapter(p: Parser) {
    p != LegacyPy && p != LegacyTs
  }

  const ScriptExts: set<string> := {".js", ".jsx", ".ts", ".tsx"}
  const CppExts: set<string> := {".cpp", ".cc", ".cxx", ".h", ".hpp"}

  /** The language name that enables an adapter in the configuration. */
  function EnablingLanguage(p: Parser, path: string): string {
    match p
    case PyAdapter => "python"
    case JsAdapter(_) => (if DetectLanguage(path).Some? then DetectLanguage(path).value else "")
    case JavaAdapter => "java"
    case CppAdapter => "cpp"
    case RustAdapter => "rust"
    case GoAdapter => "go"
    case _ => ""
  }

  /** `_get_parser_for_file`, on the lower-cased extension and the detected language.
      An ast-grep adapter is chosen only when ast-grep is on and its language is
      enabled; the two legacy parsers serve only Python and script files, and are the
      only parsers in legacy mode; a path gets some parser only when its language is
      detected, and each adapter serves exactly the extensions of the language that
      enables it. A `.c` file never gets one, though a `.h` file, also detected as C,
      goes to the C++ adapter. */
  function ParserFor(c: Config, path: string): (r: Option<Parser>)
    ensures r.Some? && IsAdapter(r.value) ==> c.useAstGrep && EnablingLanguage(r.value, path) in c.languages
    ensures r == Some(LegacyPy) <==> LowerExt(path) == ".py" && !(c.useAstGrep && "python" in c.languages)
    ensures r == Some(LegacyTs) ==> LowerExt(path) in ScriptExts
    ensures !c.useAstGrep ==> (r.Some? <==> LowerExt(path) == ".py" || LowerExt(path) in ScriptExts)
    ensures r.Some? ==> IsSupportedExtension(path) && LowerExt(path) != ".c"
    ensures r.Some? && r.value.JsAdapter? ==> (r.value.tsx <==> LowerExt(path) in {".tsx", ".jsx"})
    ensures r.Some? ==> ((r.value == PyAdapter || r.value == LegacyPy) <==> LowerExt(path) == ".py")
    ensures r.Some? ==> ((r.value.JsAdapter? || r.value == LegacyTs) <==> LowerExt(path) in ScriptExts)
    ensures r.Some? && IsAdapter(r.value) ==>
      EnablingLanguage(r.value, path) == (if LowerExt(path) == ".h" then "cpp" else DetectLanguage(path).value)
  {
    var ext := LowerExt(path);
    var lang := DetectLanguage(path);
    if ext == ".py" then
      if c.useAstGrep && "python" in c.languages then Some(PyAdapter) else Some(LegacyPy)
    else if ext in ScriptExts then
      if c.useAstGrep && lang.Some? && lang.value in c.languages then Some(JsAdapter(ext == ".tsx" || ext == ".jsx"))
      else Some(LegacyTs)
    else if ext == ".java" then
      if c.useAstGrep && "java" in c.languages then Some(JavaAdapter) else None
    else if ext in CppExts then
      if c.useAstGrep && "cpp" in c.languages then Some(CppAdapter) else None
    else if ext == ".rs" then
      if c.useAstGrep && "rust" in c.languages then Some(RustAdapter) else None
    else if ext == ".go" then
      if c.useAstGrep && "go" in c.languages then Some(GoAdapter) else None
    else None
  }

  /** With ast-grep on and a path's language enabled, the path gets that language's
      adapter; a `.h` header, detected as C, goes to the C++ adapter when `cpp` is
      enabled. */
  lemma EnabledLanguageGetsAdapter(c: Config, path: string)
    requires c.useAstGrep && DetectLanguage(path).Some?
    requires DetectLanguage(path).value in c.languages || (LowerExt(path) == ".h" && "cpp" in c.languages)
    requires LowerExt(path) !in {".c"} && (LowerExt(path) == ".h" ==> "cpp" in c.languages)
    ensures ParserFor(c, path).Some? && IsAdapter(ParserFor(c, path).value)
  {
    var ext := LowerExt(path);
    assert ext in ExtToLang;
  }

  // ---------------------------------------------------------------------------------
  // One file

  /** What a parser's `parse_file` did: returned its nodes and relations, with its own
      indexes and dedup set left in its state, or raised. */
  datatype Outcome = Returned(nodes: NodeMap, relations: seq<Relation>, st: State) | Raised

  /** The lines after a successful `parse_file`: the parser's module map entries replace
      the coordinator's whole entries (`dict.update`), its pending references, relations
      and nodes are added, and its dedup keys are unioned in. */
  function Merge(acc: State, nodes: NodeMap, relations: seq<Relation>, st: State): (r: State)
    ensures r.moduleDefs.Keys == acc.moduleDefs.Keys + st.moduleDefs.Keys
    ensures forall m :: m in st.moduleDefs ==> r.moduleDefs[m] == st.moduleDefs[m]
    ensures forall m :: m in acc.moduleDefs && m !in st.moduleDefs ==> r.moduleDefs[m] == acc.moduleDefs[m]
    ensures r.pending == acc.pending + st.pending && r.relations == acc.relations + relations
    ensures r.moduleToFile.Keys == acc.moduleToFile.Keys + st.moduleToFile.Keys
    ensures forall m :: m in st.moduleToFile ==> r.moduleToFile[m] == st.moduleToFile[m]
    ensures r.established == acc.established + st.established
    ensures ValidNodes(acc.nodes) ==> ValidNodes(r.nodes)
  {
    State(PutAll(acc.nodes, nodes), acc.relations + relations, acc.moduleDefs + st.moduleDefs,
          acc.pending + st.pending, acc.moduleToFile + st.moduleToFile, acc.established + st.established)
  }

  /** The merged node map is the union of the two, the parser's nodes winning. */
  lemma MergeUnionsNodes(acc: State, nodes: NodeMap, relations: seq<Relation>, st: State)
    requires ValidNodes(nodes)
    ensures Merge(acc, nodes, relations, st).nodes.byId == acc.nodes.byId + nodes.byId
  {
    PutAllIsUnion(acc.nodes, nodes);
  }

  /** `_parse_with_fallback`: the legacy parser of the extension, if there is one, is run;
      only its module map, pending references and module-to-file map are merged, not its
      nodes, relations or dedup keys. A raise gives `({}, [])`. */
  function ParseWithFallback(acc: State, path: string, run: Parser -> Outcome): (r: (State, (NodeMap, seq<Relation>)))
    ensures r.0.nodes == acc.nodes && r.0.relations == acc.relations && r.0.established == acc.established
    ensures acc.pending <= r.0.pending
    ensures LowerExt(path) != ".py" && LowerExt(path) !in ScriptExts ==> r == (acc, (NoNodes(), []))
  {
    var ext := LowerExt(path);
    var legacy := if ext == ".py" then Some(LegacyPy) else if ext in ScriptExts then Some(LegacyTs) else None;
    match legacy
    case None => (acc, (NoNodes(), []))
    case Some(p) =>
      match run(p)
      case Raised => (acc, (NoNodes(), []))
      case Returned(nodes, relations, st) =>
        (acc.(moduleDefs := acc.moduleDefs + st.moduleDefs, pending := acc.pending + st.pending,
              moduleToFile := acc.moduleToFile + st.moduleToFile), (nodes, relations))
  }

  /** Whether a raise is retried with a legacy parser. */
  predicate FallbackAllowed(c: Config, path: string) {
    c.fallback && c.useAstGrep && DetectLanguage(path).Some? && DetectLanguage(path).value in c.languages
  }

  /** `parse_file`, given what each parser would do with the file: no parser gives
      `({}, [])`; a return is merged and passed on; a raise goes to the fallback when it
      is allowed and otherwise gives `({}, [])`. After a raise the coordinator's graph
      is what it was, whatever the legacy parser returned. */
  function ParseFile(c: Config, acc: State, path: string, run: Parser -> Outcome): (r: (State, (NodeMap, seq<Relation>)))
    ensures ParserFor(c, path).None? ==> r == (acc, (NoNodes(), []))
    ensures ParserFor(c, path).Some? && run(ParserFor(c, path).value).Returned? ==>
      var o := run(ParserFor(c, path).value);
      r == (Merge(acc, o.nodes, o.relations, o.st), (o.nodes, o.relations))
    ensures ParserFor(c, path).Some? && run(ParserFor(c, path).value).Raised? ==>
      r == (if FallbackAllowed(c, path) then ParseWithFallback(acc, path, run) else (acc, (NoNodes(), [])))
    ensures ParserFor(c, path).Some? && run(ParserFor(c, path).value).Raised? ==>
      r.0.nodes == acc.nodes && r.0.relations == acc.relations && r.0.established == acc.established
    ensures acc.relations <= r.0.relations && acc.pending <= r.0.pending
  {
    match ParserFor(c, path)
    case None => (acc, (NoNodes(), []))
    case Some(p) =>
      match run(p)
      case Returned(nodes, relations, st) => (Merge(acc, nodes, relations, st), (nodes, relations))
      case Raised =>
        if FallbackAllowed(c, path) then ParseWithFallback(acc, path, run)
        else (acc, (NoNodes(), []))
  }

  /** Each parser run on a fresh instance. The legacy `ASTParser.parse_file` takes no
      `build_index` argument, so calling it with one raises a `TypeError` before the
      file is read. */
  function Run(p: Parser, path: string, tree: Option<Tree>, buildIndex: bool): (o: Outcome)
    ensures o.Raised? <==> p == LegacyPy
    ensures o.Returned? ==> o.st.relations == o.relations || (tree.None? && o.relations == [])
  {
    match p
    case LegacyPy => Raised
    case PyAdapter =>
      var (ps, res) := Py.ParseFile(Py.NewAdapter(), path, tree, buildIndex);
      Returned(res.0, res.1, ps.st)
    case JsAdapter(_) =>
      var (js, res) := Js.ParseFile(Js.JState(Fresh(), "", map[]), path, tree, buildIndex);
      Returned(res.0, res.1, js.st)
    case LegacyTs =>
      var (ts, res) := Ts.ParseFile(Js.JState(Fresh(), "", map[]), path, tree, buildIndex, Ts.AsWritten);
      Returned(res.0, res.1, ts.st)
    case JavaAdapter =>
      var (w, res) := Java.ParseFile(Walk(Fresh(), "", None), path, tree, buildIndex);
      Returned(res.0, res.1, w.st)
    case CppAdapter =>
      var (w, res) := Cpp.ParseFile(Walk(Fresh(), "", None), path, tree, buildIndex);
      Returned(res.0, res.1, w.st)
    case RustAdapter =>
      var (w, res) := Rust.ParseFile(Walk(Fresh(), "", None), path, tree, buildIndex);
      Returned(res.0, res.1, w.st)
    case GoAdapter =>
      var (w, res) := Go.ParseFile(Walk(Fresh(), "", None), path, tree, buildIndex);
      Returned(res.0, res.1, w.st)
  }

  /** `parse_file` with the parsers themselves. Every parser but the legacy Python one
      returns, so its result is merged and the fallback is never taken. */
  function ParseSource(c: Config, acc: State, path: string, tree: Option<Tree>, buildIndex: bool): (r: (State, (NodeMap, seq<Relation>)))
    ensures ParserFor(c, path).Some? && ParserFor(c, path) != Some(LegacyPy) ==>
      var o := Run(ParserFor(c, path).value, path, tree, buildIndex);
      r == (Merge(acc, o.nodes, o.relations, o.st), (o.nodes, o.relations))
  {
    ParseFile(c, acc, path, p => Run(p, path, tree, buildIndex))
  }

  /** A Python file routed to the legacy parser yields `({}, [])` and leaves the
      accumulator alone: the call raises, and the fallback is never allowed for it
      because the same configuration would have chosen the ast-grep adapter. */
  lemma LegacyPythonYieldsNothing(c: Config, acc: State, path: string, tree: Option<Tree>, buildIndex: bool)
    requires ParserFor(c, path) == Some(LegacyPy)
    ensures ParseSource(c, acc, path, tree, buildIndex) == (acc, (NoNodes(), []))
  {
    assert LowerExt(path) == ".py";
    assert !FallbackAllowed(c, path) by {
      assert DetectLanguage(path) == Some("python");
    }
  }

  // ---------------------------------------------------------------------------------
  // A directory

  /** `os.getenv("ENABLE_JS_TS_PARSING", "true").lower() == "true"`: on when unset, and
      when set to "true" in any letter case. */
  function JsTsEnabled(env: map<string, string>): (r: bool)
    ensures "ENABLE_JS_TS_PARSING" !in env ==> r
    ensures "ENABLE_JS_TS_PARSING" in env ==> (r <==> Lower(env["ENABLE_JS_TS_PARSING"]) == "true")
  {
    LowerOfLower("true");
    Lower(if "ENABLE_JS_TS_PARSING" in env then env["ENABLE_JS_TS_PARSING"] else "true") == "true"
  }

  /** The language that enables an extension in the collection (`script` for the
      four script extensions, enabled by JavaScript or TypeScript). */
  function LanguageOfExt(ext: string): string {
    if ext == ".py" then "python"
    else if ext in ScriptExts then "script"
    else if ext == ".java" then "java"
    else if ext in CppExts then "cpp"
    else if ext == ".rs" then "rust"
    else if ext == ".go" then "go"
    else ""
  }

  /** The extensions `parse_directory` collects. With ast-grep on, those of the enabled
      languages; otherwise `.py`, and the script extensions unless the environment sets
      `ENABLE_JS_TS_PARSING` to something other than "true" (in any case). With
      ast-grep on, an extension is collected exactly when the language that enables it
      is on. */
  function CollectedExtensions(c: Config, env: map<string, string>): (r: set<string>)
    ensures c.useAstGrep ==> forall ext :: ext in r <==>
      (LanguageOfExt(ext) == "script" && ("javascript" in c.languages || "typescript" in c.languages))
      || (LanguageOfExt(ext) in {"python", "java", "cpp", "rust", "go"} && LanguageOfExt(ext) in c.languages)
    ensures !c.useAstGrep ==> forall ext :: ext in r <==>
      ext == ".py" || (ext in ScriptExts && JsTsEnabled(env))
  {
    if c.useAstGrep then
      (if "python" in c.languages then {".py"} else {})
      + (if "javascript" in c.languages || "typescript" in c.languages then ScriptExts else {})
      + (if "java" in c.languages then {".java"} else {})
      + (if "cpp" in c.languages then CppExts else {})
      + (if "rust" in c.languages then {".rs"} else {})
      + (if "go" in c.languages then {".go"} else {})
    else
      {".py"} + (if JsTsEnabled(env) then ScriptExts else {})
  }

  /** `file_name.endswith(extensions)`: a case-sensitive suffix test. */
  predicate Collected(exts: set<string>, path: string) {
    exists e :: e in exts && EndsWith(path, e)
  }

  /** A collected extension is a dot and lower-case letters. */
  predicate PlainExt(e: string) {
    |e| > 1 && e[0] == '.' && forall i :: 1 <= i < |e| ==> 'a' <= e[i] <= 'z'
  }

  lemma CollectedArePlain(c: Config, env: map<string, string>)
    ensures forall e :: e in CollectedExtensions(c, env) ==> PlainExt(e)
  {
    forall e | e in CollectedExtensions(c, env)
      ensures PlainExt(e)
    {
      assert e in {".py", ".java", ".rs", ".go"} || e in ScriptExts || e in CppExts;
    }
  }

  /** A file `<name><ext>` with a plain extension has that extension, as the lookup
      sees it, and ends with it. */
  lemma PlainExtOfName(name: string, ext: string)
    requires |name| > 0 && '.' !in name && '/' !in name && PlainExt(ext)
    ensures LowerExt(name + ext) == ext && EndsWith(name + ext, ext)
  {
    var rest := ext[1..];
    assert name + ext == name + "." + rest;
    assert '.' !in rest && '/' !in rest by {
      assert forall i :: 0 <= i < |rest| ==> rest[i] == ext[i + 1];
    }
    SplitExtOfJoin(name, rest);
    LowerOfLower(ext);
    assert (name + ext)[|name|..] == ext;
  }

  /** Collection and routing agree: a path whose extension is collected gets a parser,
      in either mode. */
  lemma CollectedExtIsRouted(c: Config, env: map<string, string>, path: string)
    requires LowerExt(path) in CollectedExtensions(c, env)
    ensures ParserFor(c, path).Some?
  {
    var ext := LowerExt(path);
    assert ext in ExtToLang by {
      assert ext in {".py", ".java", ".rs", ".go"} || ext in ScriptExts || ext in CppExts;
    }
  }

  /** So a file `<name><ext>` collected for its extension always gets a parser. */
  lemma CollectedFileIsRouted(c: Config, env: map<string, string>, name: string, ext: string)
    requires |name| > 0 && '.' !in name && '/' !in name
    requires ext in CollectedExtensions(c, env)
    ensures Collected(CollectedExtensions(c, env), name + ext)
    ensures ParserFor(c, name + ext).Some?
  {
    CollectedArePlain(c, env);
    PlainExtOfName(name, ext);
    CollectedExtIsRouted(c, env, name + ext);
  }

  /** What each parser would do with a file and its tree. */
  type Runner = (Parser, string, Option<Tree>) -> Outcome

  /** The parsers themselves, each on a fresh instance. */
  function Parsers(buildIndex: bool): Runner {
    (p, path, tree) => Run(p, path, tree, buildIndex)
  }

  /** The first pass: every collected file, in order, through `parse_file`. A file
      only appends relations and pending references. */
  function ParseFiles(c: Config, acc: State, files: seq<(string, Option<Tree>)>, exts: set<string>, run: Runner): (r: State)
    ensures acc.relations <= r.relations && acc.pending <= r.pending
    decreases |files|
  {
    if |files| == 0 then acc
    else
      var (path, tree) := files[0];
      var acc1 := if Collected(exts, path) then ParseFile(c, acc, path, p => run(p, path, tree)).0 else acc;
      ParseFiles(c, acc1, files[1..], exts, run)
  }

  /** A file without a collected extension is not parsed at all. */
  lemma UncollectedFileSkipped(c: Config, acc: State, files: seq<(string, Option<Tree>)>, exts: set<string>, run: Runner, f: (string, Option<Tree>))
    requires !Collected(exts, f.0)
    ensures ParseFiles(c, acc, [f] + files, exts, run) == ParseFiles(c, acc, files, exts, run)
  {
    assert ([f] + files)[1..] == files;
  }

  /** `parse_directory`: the first pass over the collected files, then, with
      `build_index`, the second pass. The second-pass rules are the delegate's and are a
      parameter here; the coordinator takes back only its relations and dedup keys. */
  function ParseDirectory(c: Config, acc: State, files: seq<(string, Option<Tree>)>, buildIndex: bool,
                          env: map<string, string>, pass2: State -> State): (r: (State, (NodeMap, seq<Relation>)))
    ensures var first := ParseFiles(c, acc, files, CollectedExtensions(c, env), Parsers(buildIndex));
      && r.1 == (r.0.nodes, r.0.relations)
      && r.0 == first.(relations := r.0.relations, established := r.0.established)
      && (!buildIndex ==> r.0 == first)
      && (buildIndex ==> r.0.relations == pass2(first).relations && r.0.established == pass2(first).established)
  {
    var first := ParseFiles(c, acc, files, CollectedExtensions(c, env), Parsers(buildIndex));
    var done := if buildIndex then
        var p := pass2(first);
        first.(relations := p.relations, established := p.established)
      else first;
    (done, (done.nodes, done.relations))
  }
}
