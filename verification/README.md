# A verified model of the code-graph construction engine

This project is a Dafny model of the part of the graph-codebase indexer that turns source files into a code knowledge graph. The model covers:

- **The graph schema.** `CodeNode` and `CodeRelation`, with entity ids `<type>:<path>:<name>:<line>` and file ids `file:<path>`. Deduplication of relations on `source|type|target`, extended with the symbol for `IMPORTS_DEFINITION` (`Schema`, `AdapterState`).
- **The per-language extractors.** Each walks a syntax tree and fills the node dictionary, the relation list, the module index and the list of pending cross-file references:
  - the legacy Python `ASTParser` (`LegacyPython`), over a model of Python's `ast`;
  - the ast-grep Python adapter (`PythonAdapter`);
  - the JavaScript adapter (`JsAdapter`);
  - the tree-sitter `TypeScriptParser` with its second-pass resolver (`TsParser`);
  - the Java, C++, Rust and Go adapters (`JavaAdapter`, `CppAdapter`, `RustAdapter`, `GoAdapter`).

  A syntax tree is an input value (`Syntax.Tree`): kind, text, named fields, children and line range.
- **The multi-language coordinator** (`Language`, `Coordinator`). Extension detection, routing to a parser, merging of per-file results and indexes, the fallback after a raising parser, and the choice of the file extensions a directory walk collects.
- **Execution-mode decisions** (`Runtime`, `Pool`). GIL and free-threading detection, worker count, executor kind, inline `submit`/`map`, and the small-workload threshold. All of these are pure decisions on the environment and the runtime probes.
- **Storage and embeddings** (`Storage`, `Json`, `Embedder`, `Factory`, `OpenAiCompatible`):
  - conversion of nodes and relations into database rows with storable property values;
  - batched embedding with zero-vector padding;
  - the embedding text format;
  - the provider selection table;
  - model-name-to-dimension inference;
  - batch re-alignment of service answers.

Strings are `seq<char>`. The environment is a `map<string, string>`. Everything the program reads from outside (file contents, syntax trees, runtime probes, service answers) is a parameter.

The helper modules are `Wrappers` (`Option`, `Result`), `Text` (Python's string and path functions that the source uses) and `Json` (`json.dumps` for the values the model stores).

## Model

| member | source | states |
|---|---|---|
| AdapterState.AddRelation | src/ast_parser/adapters/base_adapter.py:82-103 | the relation is appended exactly when its key (`source\|TYPE\|target`, plus `\|symbol` for `IMPORTS_DEFINITION`) has not been seen; the key is remembered either way and nothing else changes |
| AdapterState.AddRelationIdempotent | src/ast_parser/adapters/base_adapter.py:100-103 | adding the same relation a second time leaves the adapter as the first addition left it |
| AdapterState.AddRelationKeepsDeduplicated | src/ast_parser/adapters/base_adapter.py:100-103 | the relation list stays in one-to-one correspondence with the set of seen keys, and grows by at most one |
| AdapterState.AddAllKeepsDeduplicated | src/ast_parser/adapters/base_adapter.py:100-103 | any sequence of additions keeps that correspondence |
| AdapterState.AddAllFromFresh | src/ast_parser/adapters/base_adapter.py:29-39 | starting from a fresh adapter, the relations kept are exactly as many as the distinct keys seen |
| AdapterState.DedupCount | src/ast_parser/adapters/base_adapter.py:100-103 | relations with pairwise distinct keys have as many keys as relations |
| AdapterState.DistinctSymbolsBothKept | src/ast_parser/adapters/base_adapter.py:95-98 | two `IMPORTS_DEFINITION` relations between the same nodes that differ in their symbol are both kept, in order |
| AdapterState.SymbolKey | src/ast_parser/adapters/base_adapter.py:95-98 | the key of an `IMPORTS_DEFINITION` relation ends with `\|` and its symbol |
| AdapterState.OtherKindsIgnoreProperties | src/ast_parser/adapters/base_adapter.py:89-94 | for every other relation type a second relation with the same source, type and target is dropped whatever its properties |
| AdapterState.FreshIsDeduplicated | src/ast_parser/adapters/base_adapter.py:29-39 | a new adapter has no nodes, relations, index entries, pending references or seen keys |
| AdapterState.CreateFileNode | src/ast_parser/adapters/base_adapter.py:64-80 | returns `file:<path>` and stores the path's file node under it; relations and seen keys are untouched |
| AdapterState.SetNodeProp | src/ast_parser/adapters/python_adapter.py:402 | only the named node changes, and only in the one property; the node ids stay the same |
| AdapterState.RegisterModule | src/ast_parser/adapters/rust_adapter.py:49-54 | with `build_index` the module gets a definitions table (an existing one is kept) and maps to the file node; without it nothing changes |
| AdapterState.IndexSymbol | src/ast_parser/adapters/rust_adapter.py:115-117 | the name maps to the id in the module's table and every other module's table is untouched |
| AdapterState.BindAll | src/ast_parser/adapters/python_adapter.py:74-157 | the alias table after the bindings holds exactly the old names and the bound aliases |
| AdapterState.BindAllLastWins | src/ast_parser/adapters/python_adapter.py:74-157 | an alias maps to the target of its last binding |
| AdapterState.BindAllUntouched | src/ast_parser/adapters/python_adapter.py:74-157 | a name no binding mentions keeps its old target |
| AdapterState.OpenFile | src/ast_parser/adapters/rust_adapter.py:46-54 | the file node is recorded, relations and pending references are untouched, and with `build_index` the module name maps to the file |
| AdapterState.EntityNode | src/ast_parser/adapters/rust_adapter.py:103-110 | the node's id is `<Kind>:<file>:<name>:<line>` and it carries the kind, name, file and line with no end line or properties |
| AdapterState.AddEntity | src/ast_parser/adapters/rust_adapter.py:133-143 | the node is stored under its id, other nodes are untouched, and the relation from the owner is added through the dedup check |
| AdapterState.AddClass | src/ast_parser/adapters/rust_adapter.py:99-117 | a `Class` node and a `CONTAINS` key from the file; with `build_index` the name is indexed under the module, otherwise the index is untouched |
| AdapterState.AddClasses | src/ast_parser/adapters/rust_adapter.py:93-117 | pending references and module map are untouched, relations only grow, at most one per spot, and dedup is preserved |
| AdapterState.AddClassesIndexesName | src/ast_parser/adapters/rust_adapter.py:115-116 | with `build_index` every spot name is indexed, to the class node of the last spot of that name |
| AdapterState.AddClassesRecordsEach | src/ast_parser/adapters/rust_adapter.py:93-117 | every spot gets its class node and `CONTAINS` key, and is the indexed definition of its name when no later spot shares the name |
| AdapterState.AddClassesKeepsIndex | src/ast_parser/adapters/rust_adapter.py:115-117 | spots with other names leave an index entry alone |
| AdapterState.AddEntities | src/ast_parser/adapters/rust_adapter.py:170-191 | every new node is an entity of the given kind in the file, and every new relation goes from the owner, has the given type and ends at a recorded node |
| AdapterState.AddEntitiesKeepsDeduplicated | src/ast_parser/adapters/rust_adapter.py:170-191 | adding entities keeps relations and seen keys in correspondence |
| AdapterState.AddEntitiesRecordsEach | src/ast_parser/adapters/rust_adapter.py:170-191 | every spot ends up with its node and the relation key from the owner |
| AdapterState.AddEntitiesNewFromSpots | src/ast_parser/adapters/rust_adapter.py:170-191 | a node that changed is the entity node of one of the spots |
| Schema.KindName | src/ast_parser/parser.py:7-30 | every node type's tag has at least four characters, no `:`, and does not start with `f`, so it cannot be confused with a file id |
| Schema.KindNameInjective | src/ast_parser/parser.py:7-30 | different node types carry different tags |
| Schema.FileNode | src/ast_parser/adapters/base_adapter.py:64-80 | the file node has id `file:<path>`, type File, line 0, and the path's basename as its name |
| Schema.SplitFirstColonOf | src/ast_parser/adapters/base_adapter.py:55-62 | splitting `a:b` at its first colon gives back `a` and `b` when `a` has none |
| Schema.SplitLastColonOf | src/ast_parser/adapters/base_adapter.py:55-62 | splitting `a:b` at its last colon gives back `a` and `b` when `b` has none |
| Schema.DigitsHaveNoColon | src/ast_parser/adapters/base_adapter.py:62 | the decimal rendering of a line number has no colon |
| Schema.ParseNodeIdRoundTrip | src/ast_parser/adapters/base_adapter.py:55-62 | an entity id `<type>:<path>:<name>:<line>` reads back into its four parts when the name has no colon, even if the path has some |
| Schema.NodeIdInjective | src/ast_parser/adapters/base_adapter.py:55-62 | for colon-free names, equal ids mean equal type, path, name and line |
| Schema.FileIdDiffersFromEntityId | src/ast_parser/adapters/base_adapter.py:62-72 | a file id never equals an entity id |
| Schema.GuessedIdEndsInZero | src/ast_parser/adapters/base_adapter.py:62 | the ids guessed for call and base-class targets at line 0 end in `:0` |
| Schema.NoNodes | src/ast_parser/parser.py:55-60 | the empty node dictionary is well formed |
| Schema.Put | src/ast_parser/adapters/base_adapter.py:73-80 | assignment keeps a dictionary well formed, stores the node under its id, leaves every other entry unchanged, and keeps the order when the id was already present |
| Schema.PutAll | src/ast_parser/multi_parser.py:100 | `update` keeps a dictionary well formed |
| Schema.PutAllIsUnion | src/ast_parser/multi_parser.py:100 | merging a well-formed dictionary gives the right-biased union of the two |
| Schema.PutAllIgnoresUnlisted | src/ast_parser/multi_parser.py:100 | `update` reads only the ids listed in the other dictionary's order |
| Schema.DefineEdges | src/ast_parser/parser.py:340-420 | one `DEFINES` edge per variable name, in order, from the owner to that variable's id |
| Schema.FirstClassNamed | src/ast_parser/adapters/go_adapter.py:200-201 | the first class node with that name in insertion order; none exactly when no class node has that name |
| Schema.ClassNamedFrom | src/ast_parser/adapters/go_adapter.py:200-201 | the first id in the given order naming a class of that name; none exactly when no listed id does |
| Json.Quote | src/ast_parser/parser.py:290 | a JSON string literal is ASCII and enclosed in double quotes |
| Json.ParseHex4OfHex4 | src/ast_parser/parser.py:290 | a four-digit hexadecimal escape reads back as its code unit |
| Json.UnescapeChar | src/ast_parser/parser.py:290 | every character's escape reads back as that character, in front of any rest |
| Json.SurrogatePair | src/ast_parser/parser.py:290 | a code point beyond the basic plane splits into a high and a low surrogate that recombine into it |
| Json.UnescapeEscapeChars | src/ast_parser/parser.py:290 | escaping loses nothing: the body of every literal reads back as the original text |
| Json.EncodeIsAscii | src/ast_parser/parser.py:290 | with `ensure_ascii`, the whole document is ASCII whenever float rendering is |
| Json.Encode | src/main.py:289 | a string becomes an ASCII double-quoted literal, an integer a text that `int()` reads back as it, a list a bracketed and a dictionary a braced text |
| Json.EncodeStringRoundTrip | src/main.py:289 | a string value encodes as a quoted literal whose body reads back as the string |
| Text.ContainsIffOccurs | src/embeddings/openai_compatible.py:87-114 | the `in` test holds exactly when the substring occurs at some position |
| Text.Split | src/ast_parser/adapters/java_adapter.py:80 | `split` on one character gives at least one piece, and no piece holds the separator |
| Text.JoinSplit | src/ast_parser/adapters/java_adapter.py:80 | joining the pieces with the separator gives the input back |
| Text.FirstSegmentSpec | src/ast_parser/adapters/python_adapter.py:87 | `split(sep)[0]` is the longest separator-free prefix |
| Text.LastSegmentSpec | src/ast_parser/adapters/cpp_adapter.py:81 | `split(sep)[-1]` is the longest separator-free suffix |
| Text.LastSegmentIsLastPiece | src/ast_parser/adapters/cpp_adapter.py:81 | that suffix is the last piece `split` produces |
| Text.FirstSegmentGuarded | src/ast_parser/adapters/javascript_adapter.py:155 | guarding `split(sep)[0]` by `sep in s` names the same prefix |
| Text.LastSegmentGuarded | src/ast_parser/adapters/python_adapter.py:222 | guarding `split(sep)[-1]` by `sep in s` names the same suffix |
| Text.FirstSegmentOfJoin | src/ast_parser/adapters/python_adapter.py:87 | the first piece of `a + sep + b` is `a` when `a` holds no separator |
| Text.LastSegmentOfJoin | src/ast_parser/adapters/python_adapter.py:222 | the last piece of `a + sep + b` is `b` when `b` holds no separator |
| Text.PrefixBeforeSpec | src/ast_parser/adapters/rust_adapter.py:80 | `split(sub)[0]` is the prefix ending where `sub` first occurs, or the whole string when it never does |
| Text.SplitExtSpec | src/ast_parser/language_detector.py:40 | root and extension give back the path; a non-empty extension starts with the last dot of the final component, and a leading-dot name has none |
| Text.SplitExtOfJoin | src/ast_parser/language_detector.py:40 | `<name>.<ext>` with no other dot or slash splits into `<name>` and `.<ext>` |
| Text.ModuleNameSpec | src/ast_parser/adapters/cpp_adapter.py:51 | a module name is a prefix of the file's basename and has no slash |
| Text.LowerHasNoUpper | src/ast_parser/language_detector.py:40 | no upper-case letter survives lowering |
| Text.LowerIdempotent | src/ast_parser/language_detector.py:40 | lowering twice is lowering once |
| Text.TrimLeft | src/ast_parser/adapters/go_adapter.py:77 | `lstrip` removes exactly a leading run of the given characters |
| Text.TrimRight | src/ast_parser/adapters/go_adapter.py:77 | `rstrip` removes exactly a trailing run of the given characters |
| Text.StripCharsSpec | src/ast_parser/adapters/cpp_adapter.py:77 | what `strip` keeps is a slice of the input, everything cut belongs to the set, and the slice neither starts nor ends with a member of it |
| Text.StripCharsIdempotent | src/ast_parser/adapters/cpp_adapter.py:77 | stripping twice is stripping once |
| Text.StripCharsWrapped | src/ast_parser/adapters/go_adapter.py:77 | stripping quotes around a text that neither starts nor ends with one gives the text back |
| Text.StatementArgument | src/ast_parser/adapters/java_adapter.py:73-77 | an argument exactly when the stripped text starts with the keyword; it is itself stripped |
| Text.StatementArgumentRoundTrip | src/ast_parser/adapters/rust_adapter.py:73-77 | `<keyword><arg>;` and `<keyword><arg>` both give back `<arg>` |
| Text.ParseNatToString | src/ast_parser/adapters/base_adapter.py:62 | a line number rendered in decimal reads back as itself |
| Text.NatToStringInjective | src/ast_parser/adapters/base_adapter.py:62 | different line numbers render differently |
| Text.IntToStringRoundTrip | src/utils/runtime_detection.py:89-90 | `int(str(n))` is `n`, negative or not |
| Text.ParseInt | src/utils/runtime_detection.py:89-90 | a value exactly for optional surrounding whitespace, an optional sign and digits; non-positive only with a minus sign |
| Language.DetectLanguage | src/ast_parser/language_detector.py:30-41 | a language is detected exactly when the lower-cased extension is in the table, and it is one of the eight table languages |
| Language.DetectMatchesExtensions | src/ast_parser/language_detector.py:12-27 | the table read forwards and backwards agree: `.jsx` is javascript, `.tsx` typescript, `.h` c and `.hpp` cpp |
| Language.IsSupportedExtension | src/ast_parser/language_detector.py:44-54 | supported exactly when some language is detected, whose extensions include the path's |
| Language.LowerDotExt | src/ast_parser/language_detector.py:40 | lower-casing keeps the leading dot of an extension |
| Language.DetectIgnoresCase | src/ast_parser/language_detector.py:40-41 | the detected language of `<name>.<ext>` does not depend on the letter case of `ext` |
| Coordinator.NewConfig | src/ast_parser/multi_parser.py:39-51 | the flags are kept, and the enabled languages are the given list as a set, or python, javascript and typescript when the list is missing or empty |
| Coordinator.ParserFor | src/ast_parser/multi_parser.py:116-182 | an adapter only with ast-grep on and its language enabled; the legacy Python parser exactly for `.py` when the Python adapter is not chosen; the legacy script parser only for script extensions; in legacy mode a parser exactly for Python and script files; never one for an undetected language or `.c`; the JavaScript adapter in TSX mode exactly for `.tsx` and `.jsx`; the Python parsers exactly for `.py` and the script parsers exactly for script extensions; each adapter exactly for the extensions of its own language, `.h` going to the C++ adapter |
| Coordinator.EnabledLanguageGetsAdapter | src/ast_parser/multi_parser.py:128-178 | with ast-grep on and the detected language enabled (for `.h`, `cpp`), the path gets an adapter |
| Coordinator.Merge | src/ast_parser/multi_parser.py:89-101 | a parser's module entries replace the coordinator's whole entries for those modules, others stay; pending references and relations are appended in order; module-to-file entries are overwritten; dedup keys are unioned |
| Coordinator.MergeUnionsNodes | src/ast_parser/multi_parser.py:100 | the merged nodes are the union by id, the parser's nodes winning |
| Coordinator.ParseWithFallback | src/ast_parser/multi_parser.py:184-218 | the fallback never touches the coordinator's nodes, relations or dedup keys, only extends pending references, and gives `({}, [])` for any extension but Python and script ones |
| Coordinator.ParseFile | src/ast_parser/multi_parser.py:64-114 | no parser gives `({}, [])` unchanged; a return is merged and passed on; a raise goes to the fallback exactly when fallback, ast-grep and the detected language are all on, else gives `({}, [])`; after a raise nodes, relations and dedup keys are unchanged |
| Coordinator.Run | src/ast_parser/multi_parser.py:87 | every parser returns except the legacy Python one, which raises because its `parse_file` takes no `build_index`; a parser that returns reports the relations it holds (or none for an unreadable file) |
| Coordinator.ParseSource | src/ast_parser/multi_parser.py:64-103 | with the real parsers, any file routed to a parser other than the legacy Python one has that parser's result merged and returned |
| Coordinator.LegacyPythonYieldsNothing | src/ast_parser/multi_parser.py:105-114 | a Python file routed to the legacy parser yields `({}, [])` and leaves the coordinator alone, since the fallback is never allowed for it |
| Coordinator.JsTsEnabled | src/ast_parser/multi_parser.py:256 | script parsing is on when `ENABLE_JS_TS_PARSING` is unset or equals `true` in any letter case |
| Coordinator.CollectedExtensions | src/ast_parser/multi_parser.py:237-259 | with ast-grep, an extension is collected exactly when the language enabling it is on (script extensions for javascript or typescript); in legacy mode exactly `.py` and, when enabled, the script extensions |
| Coordinator.CollectedArePlain | src/ast_parser/multi_parser.py:241-259 | every collected extension is a dot followed by lower-case letters |
| Coordinator.PlainExtOfName | src/ast_parser/multi_parser.py:75-264 | for a file name with such an extension, the lower-cased lookup and the case-sensitive suffix test see the same extension |
| Coordinator.CollectedExtIsRouted | src/ast_parser/multi_parser.py:116-259 | a path whose extension is collected always gets a parser, in either mode |
| Coordinator.CollectedFileIsRouted | src/ast_parser/multi_parser.py:261-272 | a file `<name><ext>` collected for its extension is both picked up and routed |
| Coordinator.ParseFiles | src/ast_parser/multi_parser.py:270-272 | the first pass only appends relations and pending references |
| Coordinator.UncollectedFileSkipped | src/ast_parser/multi_parser.py:262-266 | a file without a collected extension is not parsed at all |
| Coordinator.ParseDirectory | src/ast_parser/multi_parser.py:220-302 | the result is the first pass over the collected files; the second pass runs exactly when `build_index` is set and changes only relations and dedup keys |
| JsAdapter.LanguageOf | src/ast_parser/adapters/javascript_adapter.py:728-743 | `typescript`, `tsx` and `jsx` exactly for the lower-cased extensions `.ts`, `.tsx` and `.jsx`; `javascript` otherwise |
| JsAdapter.NameBindings | src/ast_parser/adapters/javascript_adapter.py:154-165 | each name is bound to the whole specifier, with an `IMPORTS` reference whose module is the specifier before its first `/` |
| JsAdapter.ImportStatementBindings | src/ast_parser/adapters/javascript_adapter.py:113-165 | no bindings when the statement has no or an empty specifier; otherwise one per imported name, in order, each bound to the specifier |
| JsAdapter.ImportHitsBindings | src/ast_parser/adapters/javascript_adapter.py:111-165 | every binding's reference is an `IMPORTS` from the file naming the alias itself and the root of its specifier |
| JsAdapter.RelativeRootIsDot | src/ast_parser/adapters/javascript_adapter.py:155 | a relative specifier `./x` has `.` as its root module |
| JsAdapter.ParseImports | src/ast_parser/adapters/javascript_adapter.py:102-165 | only the alias table and the pending list change: the references are appended in order, every imported name is in the table and no old name is lost |
| JsAdapter.TopLevelIff | src/ast_parser/adapters/javascript_adapter.py:700-726 | a node is top level exactly when no ancestor is a function declaration, arrow function, class or method; the statement-block test adds nothing |
| JsAdapter.ParamNamesOf | src/ast_parser/adapters/javascript_adapter.py:655-663 | at most one name per parameter child |
| JsAdapter.StrList | src/ast_parser/adapters/javascript_adapter.py:308 | the parameter list as string values, position by position |
| JsAdapter.AddFunction | src/ast_parser/adapters/javascript_adapter.py:354-381 | exactly one new node, the `Function` node at the definition's line; relations only grow, pending references are untouched, and with `build_index` and a module name the name is indexed |
| JsAdapter.ParseFunctionDecls | src/ast_parser/adapters/javascript_adapter.py:332-381 | relations and nodes only grow; pending references and module map are untouched |
| JsAdapter.ArrowDeclarators | src/ast_parser/adapters/javascript_adapter.py:401-453 | relations and nodes only grow; pending references and module map are untouched |
| JsAdapter.ParseArrowFunctions | src/ast_parser/adapters/javascript_adapter.py:386-453 | relations and nodes only grow; pending references and module map are untouched |
| JsAdapter.InClassNoFunction | src/ast_parser/adapters/javascript_adapter.py:335-336 | a declaration nested in a class yields no function node, either as a declaration or as an arrow function |
| JsAdapter.ParseInheritance | src/ast_parser/adapters/javascript_adapter.py:221-260 | at most one addition: an imported parent gives a pending `EXTENDS` naming the parent and the root of its specifier, any other an `EXTENDS` edge from the class, never both |
| JsAdapter.ParseMethods | src/ast_parser/adapters/javascript_adapter.py:279-320 | every new relation is a `DEFINES` from the class; pending references, index and module map are untouched |
| JsAdapter.ClassBody | src/ast_parser/adapters/javascript_adapter.py:212-215 | the inheritance and methods only grow relations, pending references and nodes |
| JsAdapter.ParseClass | src/ast_parser/adapters/javascript_adapter.py:178-219 | a class without a name adds nothing; a named one has its node and, with `build_index` and a module name, its index entry |
| JsAdapter.ParseClasses | src/ast_parser/adapters/javascript_adapter.py:167-219 | relations, pending references and nodes only grow; the module map is untouched |
| JsAdapter.Declarator | src/ast_parser/adapters/javascript_adapter.py:480-528 | a declarator with an arrow function among its own children emits nothing when arrows are skipped; otherwise a name is emitted exactly when the child is a named `variable_declarator` whose name was not seen, and its `Variable` node sits at the declarator's line with `declaration_type` set to the declaration's type; emitted names stay distinct and equal to the names seen |
| JsAdapter.EmitVariable | src/ast_parser/adapters/javascript_adapter.py:500-528 | a new name becomes the last emitted name, its `Variable` node is the only node added and carries the declaration's type, and the emitted names stay distinct |
| JsAdapter.Declarators | src/ast_parser/adapters/javascript_adapter.py:480-528 | emitted names stay distinct and equal to the names seen; every node added carries the declaration's type; pending references, index and module map are untouched |
| JsAdapter.LexicalType | src/ast_parser/adapters/javascript_adapter.py:472-476 | the declaration type is the first `const` or `let` keyword among the children, and "let" when there is none |
| JsAdapter.Declarations | src/ast_parser/adapters/javascript_adapter.py:465-570 | emitted names stay distinct and equal to the names seen; nodes added for `var` declarations carry "var" and the others `const` or `let`; pending references, index and module map are untouched |
| JsAdapter.VarKeepsArrowDeclarator | src/ast_parser/adapters/javascript_adapter.py:530-570 | a top-level `var` declarator with an arrow function among its children still gets its `Variable` node with `declaration_type` "var", while the same shape under `const`/`let` is skipped |
| JsAdapter.ParseVariables | src/ast_parser/adapters/javascript_adapter.py:455-575 | one shared set of processed names: every variable name is emitted at most once per file, and nothing but nodes and relations change |
| JsAdapter.MarkExported | src/ast_parser/adapters/javascript_adapter.py:629-633 | exactly the nodes of the current file with that name get `exported` and `export_type = "named"`; every other node is untouched |
| JsAdapter.MarkAll | src/ast_parser/adapters/javascript_adapter.py:589-633 | every node of the file whose name is listed ends with `exported = True` and `export_type = "named"`, however often it is listed; nodes of other files and nodes with unlisted names are unchanged; no id is added or removed |
| JsAdapter.ParseExports | src/ast_parser/adapters/javascript_adapter.py:577-633 | a node is marked as a named export exactly when it belongs to the current file and an export statement gives its name; every other node is unchanged and none is added or removed |
| JsAdapter.MarkedNodeIsExported | src/ast_parser/adapters/javascript_adapter.py:629-633 | a node of the file with a marked name ends with `exported = True` and `export_type = "named"` |
| JsAdapter.ParseFile | src/ast_parser/adapters/javascript_adapter.py:45-100 | the alias table is emptied; an unreadable file gives `({}, [])`; otherwise the whole graph, holding the file node, and with `build_index` the module maps to the file |
| JsAdapter.ParseContents | src/ast_parser/adapters/javascript_adapter.py:90-94 | the passes leave the module map alone and only grow relations, pending references and nodes |
| JsAdapter.ImportPass | src/ast_parser/adapters/javascript_adapter.py:90 | the import pass changes only pending references and the alias table |
| JsAdapter.ExportPass | src/ast_parser/adapters/javascript_adapter.py:94 | the export pass changes only node properties |
| TsParser.GrammarFor | src/ast_parser/typescript_parser.py:121-136 | the TypeScript grammar exactly for a lower-cased `.ts` extension, TSX exactly for `.tsx`, JavaScript for everything else, agreeing with the language label the nodes carry |
| TsParser.LastOfKind | src/ast_parser/typescript_parser.py:646-652 | the child a loop that overwrites on each match leaves behind: a child of that kind, `None` exactly when no child has it |
| TsParser.RenamedSpecifierBindsBoth | src/ast_parser/typescript_parser.py:693-697 | `{a as b}` yields both `a` and `b` as imported names |
| TsParser.StatementBindings | src/ast_parser/typescript_parser.py:640-669 | an import statement without a non-empty module string binds nothing; otherwise each imported name is bound to the module string |
| TsParser.HitsBindings | src/ast_parser/typescript_parser.py:654-669 | every pending import is an `IMPORTS` from the file node whose module is the part of the specifier before the first `/` and whose name is the imported name |
| TsParser.ExtractImports | src/ast_parser/typescript_parser.py:615-672 | every imported name enters the alias table (earlier entries stay) and gets one pending reference, appended in order; nodes, relations and the index are untouched |
| TsParser.AddFunction | src/ast_parser/typescript_parser.py:233-269 | exactly one new `Function` node id at the definition's line and exactly one appended `CONTAINS` from the file node; no pending reference and no module registration |
| TsParser.ExtractDeclarations | src/ast_parser/typescript_parser.py:212-271 | one `CONTAINS` per declaration outside every class with a name, none for the others, all from the file node; earlier relations kept |
| TsParser.Skipped | src/ast_parser/typescript_parser.py:221-233 | the declarations passed over are a sub-list of those found |
| TsParser.ExtractArrows | src/ast_parser/typescript_parser.py:273-332 | arrow functions under `const`/`let` add only `CONTAINS` edges from the file node, after the relations already held |
| TsParser.ExtractFunctions | src/ast_parser/typescript_parser.py:199-332 | standard and arrow functions together add only nodes and `CONTAINS` edges from the file node; pending references and module registrations are untouched |
| TsParser.LocalParentEdges | src/ast_parser/typescript_parser.py:438-447 | one `EXTENDS` per parent, in order, to the same-file class id at line 0 |
| TsParser.DeferredParent | src/ast_parser/typescript_parser.py:429-437 | the deferred parent names the alias target's first `.` segment as module and its last as symbol (the whole target without a dot) and keeps the written parent name |
| TsParser.ParentRefs | src/ast_parser/typescript_parser.py:411-449 | each parent gives exactly one appended edge or one pending reference, never both and never neither; nothing but relations and pending changes |
| TsParser.ParentsWithoutImports | src/ast_parser/typescript_parser.py:428-447 | with an empty alias table every parent becomes a same-file `EXTENDS` edge, in order, and nothing is deferred |
| TsParser.DeferredParents | src/ast_parser/typescript_parser.py:429-437 | one deferred reference per imported parent, position by position |
| TsParser.ImportedParentStep | src/ast_parser/typescript_parser.py:429-437 | an imported first parent is deferred and the rest are handled with that reference queued |
| TsParser.DeferredParentsCons | src/ast_parser/typescript_parser.py:424-437 | the deferred references of a list are the first parent's followed by the rest's |
| TsParser.ImportedParentsDeferred | src/ast_parser/typescript_parser.py:428-437 | parents that are all imported names add no edge and exactly their deferred references, in order |
| TsParser.AddMethod | src/ast_parser/typescript_parser.py:466-513 | a method definition without a property name changes nothing; one with a name adds a `Method` node and exactly one `DEFINES` from the class |
| TsParser.BodyMethods | src/ast_parser/typescript_parser.py:463-513 | only `DEFINES` edges from the class are appended, after the relations already held |
| TsParser.ClassMethods | src/ast_parser/typescript_parser.py:451-515 | over every class body, only `DEFINES` edges from the class are appended; pending references and the index stay as they were |
| TsParser.AddClassNode | src/ast_parser/typescript_parser.py:367-396 | exactly one new `Class` node id at the declaration's line and one appended `CONTAINS` from the file node |
| TsParser.ExtractClass | src/ast_parser/typescript_parser.py:357-406 | a class is emitted at most once per file, only with a non-empty name not seen before; an emitted class has its node and, when indexing a named module, its index entry; without imports nothing is deferred |
| TsParser.NewClass | src/ast_parser/typescript_parser.py:367-406 | a new class keeps all earlier relations and pending references, adds its node, and when indexing a named module maps its name to its id |
| TsParser.ExtractClasses | src/ast_parser/typescript_parser.py:334-409 | over all declarations the emitted names only grow, relations and pending references are extended, and with an empty alias table nothing is deferred |
| TsParser.SameTopLevelAsAdapter | src/ast_parser/typescript_parser.py:845-859 | this parser's top-level test decides exactly as the JavaScript adapter's |
| TsParser.DeclarationType | src/ast_parser/typescript_parser.py:580-585 | the declaration type is always one of `const`, `let`, `var` |
| TsParser.Declaration | src/ast_parser/typescript_parser.py:555-610 | a declaration gives at most one variable, only at top level, without an arrow function, named by its first captured declarator, as a `Variable` node at the declaration's line |
| TsParser.Declarations | src/ast_parser/typescript_parser.py:555-613 | over all declarations of one kind only nodes and relations change, and the earlier relations stay a prefix |
| TsParser.ExtractVariables | src/ast_parser/typescript_parser.py:517-613 | the processed-name set shared across `const`/`let` and `var` keeps every name emitted at most once per file |
| TsParser.ExtractExports | src/ast_parser/typescript_parser.py:708-758 | a node is marked as a named export exactly when it belongs to the current file and an export statement gives its name; every other node is unchanged and none is added or removed |
| TsParser.BeforeClasses | src/ast_parser/typescript_parser.py:172-195 | as written, the alias table is still empty when classes are read; with imports first, it already binds every imported name |
| TsParser.ParseTree | src/ast_parser/typescript_parser.py:172-197 | parsing a tree only extends relations and pending references, keeps every node id and the module registrations |
| TsParser.ParseFile | src/ast_parser/typescript_parser.py:75-119 | an unreadable file gives an empty result; otherwise the result is the current graph with the file node, and with `build_index` the earlier relations are kept and the module maps to the file node |
| TsParser.StandaloneForgetsGraph | src/ast_parser/typescript_parser.py:89-91 | a standalone parse does not depend on the nodes and relations held before |
| TsParser.AsWrittenTreeDefersNoParent | src/ast_parser/typescript_parser.py:181-195 | with the steps in the written order, every pending reference a tree adds is an `IMPORTS`: no parent is ever deferred |
| TsParser.AsWrittenNeverDefersParent | src/ast_parser/typescript_parser.py:75-119 | with the steps in the written order, a whole file parse adds only `IMPORTS` pending references: no parent is ever deferred |
| TsParser.ImportsFirstDefersImportedParents | src/ast_parser/typescript_parser.py:411-449 | with the imports read first, a class whose parents are all imported gets no edge, and its pending list grows by exactly the deferred `EXTENDS` reference of each parent, in order |
| TsParser.ResolveOne | src/ast_parser/typescript_parser.py:927-966 | an entry without a name or with an unindexed module changes nothing; a known symbol links to its definition and an unknown one to the module's file node with `imported_name`, each only when its `source:type:target` key is new, which is then recorded |
| TsParser.Resolve | src/ast_parser/typescript_parser.py:927-966 | earlier relations stay a prefix, and the appended relations have pairwise distinct keys, all new and all recorded |
| TsParser.ProcessPending | src/ast_parser/typescript_parser.py:921-966 | the second pass only appends relations and records keys |
| TsParser.FallbackKeepsFirstSymbol | src/ast_parser/typescript_parser.py:950-964 | two unresolved names into the same module from the same source share one key, so only the first reaches the file node |
| TsParser.ParseFiles | src/ast_parser/typescript_parser.py:63-67 | the first pass over all files only extends relations and pending references |
| TsParser.ParseDirectory | src/ast_parser/typescript_parser.py:47-73 | every index is reset; the result is the first pass's nodes with its relations extended by the second pass |
| JavaAdapter.ImportPaths | src/ast_parser/adapters/java_adapter.py:70-77 | every path kept comes from a declaration starting with `import `, with the prefix and a trailing `;` removed |
| JavaAdapter.ImportPathsComplete | src/ast_parser/adapters/java_adapter.py:70-77 | no declaration starting with `import ` is lost |
| JavaAdapter.ModuleRef | src/ast_parser/adapters/java_adapter.py:79-88 | an `IMPORTS_MODULE` reference from the file whose module is the dot-free prefix of the path up to its first `.` and whose full path is the path |
| JavaAdapter.QualifiedImport | src/ast_parser/adapters/java_adapter.py:73-88 | `import a.b;` records module `a` with full path `a.b` |
| JavaAdapter.ParseImports | src/ast_parser/adapters/java_adapter.py:67-88 | one pending reference per import path, in order, after the existing ones; nothing else changes |
| JavaAdapter.DeclaratorSpots | src/ast_parser/adapters/java_adapter.py:159-168 | every field spot is the name and line of a named `variable_declarator` child of a field declaration |
| JavaAdapter.DeclaratorSpotsComplete | src/ast_parser/adapters/java_adapter.py:159-168 | every named declarator child of a field declaration is among the field spots |
| JavaAdapter.ParseMembers | src/ast_parser/adapters/java_adapter.py:123-126 | methods then fields only add nodes, relations and seen keys, and preserve dedup |
| JavaAdapter.MethodRecorded | src/ast_parser/adapters/java_adapter.py:131-154 | every named method below the class body gets its `Method` node and `DEFINES` key from the class |
| JavaAdapter.FieldRecorded | src/ast_parser/adapters/java_adapter.py:156-181 | every named field declarator becomes a `ClassVariable` node with a `Variable:` id and a `DEFINES` key from the class |
| JavaAdapter.ParseClass | src/ast_parser/adapters/java_adapter.py:95-129 | an unnamed declaration adds nothing; a named one gets its class node, the `CONTAINS` key from the file and, with `build_index`, its index entry; pending references are untouched |
| JavaAdapter.ParseClasses | src/ast_parser/adapters/java_adapter.py:90-129 | pending references and module map are untouched, and without `build_index` so is the index; dedup is preserved |
| JavaAdapter.ClassRecorded | src/ast_parser/adapters/java_adapter.py:93-113 | every named class declaration keeps its class node and `CONTAINS` key whatever follows it |
| JavaAdapter.ParseFile | src/ast_parser/adapters/java_adapter.py:30-65 | an unreadable file gives `({}, [])` and leaves the accumulator alone; otherwise the whole accumulated graph, holding the file node, is returned |
| RustAdapter.UsePaths | src/ast_parser/adapters/rust_adapter.py:71-77 | every path kept comes from a declaration starting with `use `, with the prefix and a trailing `;` removed |
| RustAdapter.UsePathsComplete | src/ast_parser/adapters/rust_adapter.py:71-77 | no declaration starting with `use ` is lost |
| RustAdapter.UseRef | src/ast_parser/adapters/rust_adapter.py:79-88 | an `IMPORTS_MODULE` reference from the file whose module is the part of the path before the first `::` (the whole path when there is none) and whose full path is the path |
| RustAdapter.QualifiedUse | src/ast_parser/adapters/rust_adapter.py:73-88 | `use a::b;` records module `a` with full path `a::b` |
| RustAdapter.ParseUses | src/ast_parser/adapters/rust_adapter.py:68-88 | one pending reference per path, in order, appended after the existing ones; nothing else changes |
| RustAdapter.FunctionItems | src/ast_parser/adapters/rust_adapter.py:122-123 | exactly the `function_item` children of the node |
| RustAdapter.ParseStructs | src/ast_parser/adapters/rust_adapter.py:90-116 | without `build_index` the index is untouched; pending references and module map are untouched, relations and nodes only grow, and dedup is preserved |
| RustAdapter.StructRecorded | src/ast_parser/adapters/rust_adapter.py:93-116 | every named `struct_item`, nested ones included, gets its class node and `CONTAINS` key from the file; with `build_index` its name is indexed to a struct of that name, and to this one when no struct of that name sits on another line |
| RustAdapter.StructIndexed | src/ast_parser/adapters/rust_adapter.py:115-116 | with `build_index` a struct name is indexed to the class node of a struct item of that name |
| RustAdapter.ParseFunctions | src/ast_parser/adapters/rust_adapter.py:119-143 | pending references and module map are untouched, relations and nodes only grow, and dedup is preserved |
| RustAdapter.FunctionRecorded | src/ast_parser/adapters/rust_adapter.py:122-143 | every named `function_item` child of the root becomes a `Function` node with `CONTAINS` from the file |
| RustAdapter.FunctionsFromRoot | src/ast_parser/adapters/rust_adapter.py:122-143 | every function node added comes from a named `function_item` child of the root, at its line |
| RustAdapter.ParseImpl | src/ast_parser/adapters/rust_adapter.py:148-191 | an impl without a type, or whose type names no class node, adds nothing; every new relation is a `DEFINES` from a class node of that name |
| RustAdapter.ImplMethodRecorded | src/ast_parser/adapters/rust_adapter.py:156-191 | each named `fn` of the body becomes a `Method` node with `DEFINES` from the first class node of the impl's type name |
| RustAdapter.ParseImpls | src/ast_parser/adapters/rust_adapter.py:145-191 | pending references, index and module map are untouched and dedup is preserved |
| RustAdapter.ParseFile | src/ast_parser/adapters/rust_adapter.py:29-66 | an unreadable file gives `({}, [])` and leaves the accumulator alone; otherwise the result is the whole accumulated graph, holding the file node, and with `build_index` the module maps to the file |
| RustAdapter.ParseContents | src/ast_parser/adapters/rust_adapter.py:56-60 | the four passes leave the module map alone, only grow relations, pending references and nodes, and preserve dedup |
| CppAdapter.IncludeTarget | src/ast_parser/adapters/cpp_adapter.py:73-77 | a target exactly when the stripped directive starts with `#include`, and the target has no blank, `<`, `>` or `"` at either end |
| CppAdapter.AngleIncludeTarget | src/ast_parser/adapters/cpp_adapter.py:73-77 | `#include <t>` gives `t` back when `t` has no bracket at either end |
| CppAdapter.IncludeRef | src/ast_parser/adapters/cpp_adapter.py:79-89 | an `IMPORTS_MODULE` reference whose full path is the last `/` piece of the target (the target itself when it has no `/`) and whose module is that piece without its extension |
| CppAdapter.IncludeRefOfPath | src/ast_parser/adapters/cpp_adapter.py:79-89 | the target `dir/name.ext` records module `name` with full path `name.ext` |
| CppAdapter.AngleInclude | src/ast_parser/adapters/cpp_adapter.py:71-89 | `#include <dir/name.ext>` records module `name` with full path `name.ext` |
| CppAdapter.IncludeTargets | src/ast_parser/adapters/cpp_adapter.py:71-77 | every target kept comes from a directive starting with `#include` |
| CppAdapter.IncludeTargetsComplete | src/ast_parser/adapters/cpp_adapter.py:71-77 | no directive starting with `#include` is lost |
| CppAdapter.ParseIncludes | src/ast_parser/adapters/cpp_adapter.py:68-89 | one pending reference per target, in order, after the existing ones; nothing else changes |
| CppAdapter.DeclaratorName | src/ast_parser/adapters/cpp_adapter.py:189-211 | a name found is the text of an identifier below the declarator, and a declarator with an identifier child always yields one |
| CppAdapter.ChildName | src/ast_parser/adapters/cpp_adapter.py:202-211 | the loop over the children from a position on finds an identifier below the declarator, or there is no identifier child from there on |
| CppAdapter.FunctionSpot | src/ast_parser/adapters/cpp_adapter.py:136-145 | a spot has the definition's line and a non-empty name that is an identifier below its declarator |
| CppAdapter.FunctionSpots | src/ast_parser/adapters/cpp_adapter.py:134-145 | every spot kept is the spot of one of the definitions |
| CppAdapter.FunctionSpotsComplete | src/ast_parser/adapters/cpp_adapter.py:134-145 | no named definition is skipped |
| CppAdapter.ParseClass | src/ast_parser/adapters/cpp_adapter.py:95-129 | an unnamed specifier adds nothing; a named one gets its class node, the `CONTAINS` key from the file and, with `build_index`, its index entry; without `build_index` the index is untouched; pending references are untouched |
| CppAdapter.MethodRecorded | src/ast_parser/adapters/cpp_adapter.py:131-158 | every named `function_definition` below a class body gets its `Method` node at the definition's line and a `DEFINES` key from the class |
| CppAdapter.ParseClasses | src/ast_parser/adapters/cpp_adapter.py:91-129 | pending references and module map are untouched, and without `build_index` so is the index; dedup is preserved |
| CppAdapter.ClassRecorded | src/ast_parser/adapters/cpp_adapter.py:94-114 | every named class specifier keeps its class node and `CONTAINS` key |
| CppAdapter.TopLevelDefinitions | src/ast_parser/adapters/cpp_adapter.py:163-164 | exactly the `function_definition` children of the root |
| CppAdapter.FunctionsOnlyFromRoot | src/ast_parser/adapters/cpp_adapter.py:160-187 | every function node added comes from a named definition that is a direct child of the root |
| CppAdapter.ParseFunctions | src/ast_parser/adapters/cpp_adapter.py:160-187 | only appends `CONTAINS` relations from the file and adds nodes; pending references and indexes are untouched and the relations stay deduplicated |
| CppAdapter.FunctionRecorded | src/ast_parser/adapters/cpp_adapter.py:160-187 | every named definition that is a direct child of the root gets its function node and `CONTAINS` key |
| CppAdapter.ParseFile | src/ast_parser/adapters/cpp_adapter.py:30-66 | an unreadable file gives `({}, [])` and leaves the accumulator alone; otherwise the whole accumulated graph, holding the file node, is returned |
| GoAdapter.FirstOfKind | src/ast_parser/adapters/go_adapter.py:113-116 | the first tree of the kind, with none of that kind before it; `None` exactly when there is none |
| GoAdapter.SpecsIn | src/ast_parser/adapters/go_adapter.py:72-91 | every spec found is an `import_spec` that is a direct child or a child of an `import_spec_list` child |
| GoAdapter.SpecsInComplete | src/ast_parser/adapters/go_adapter.py:72-91 | both shapes of spec are found wherever they sit among the children |
| GoAdapter.AllSpecs | src/ast_parser/adapters/go_adapter.py:69-91 | every spec collected over the declarations is an `import_spec` |
| GoAdapter.AllSpecsComplete | src/ast_parser/adapters/go_adapter.py:69-91 | a spec of any declaration is among the collected specs |
| GoAdapter.SpecPaths | src/ast_parser/adapters/go_adapter.py:75-77 | every path kept is the quote-stripped `path` text of one of the specs |
| GoAdapter.SpecPathsComplete | src/ast_parser/adapters/go_adapter.py:75-77 | no spec with a path is lost |
| GoAdapter.ImportRef | src/ast_parser/adapters/go_adapter.py:77-87 | an `IMPORTS_MODULE` reference whose module is the last `/` element of the path (the path itself when it has none) and whose full path is the path |
| GoAdapter.QuotedImport | src/ast_parser/adapters/go_adapter.py:75-87 | `"dir/name"` gives the path `dir/name` and the module `name` |
| GoAdapter.ParseImports | src/ast_parser/adapters/go_adapter.py:66-103 | one pending reference per path, in order, after the existing ones; nothing else changes |
| GoAdapter.ParseFileImports | src/ast_parser/adapters/go_adapter.py:66-103 | only the pending references grow, by one per import path of the file |
| GoAdapter.GroupedImportFound | src/ast_parser/adapters/go_adapter.py:88-103 | a spec inside an `import_spec_list` of any import declaration has its path among the file's import paths |
| GoAdapter.StructSpot | src/ast_parser/adapters/go_adapter.py:108-132 | a spot exactly when the declaration has a type spec with a name and a `struct_type` type; it carries that name and the declaration's line |
| GoAdapter.ParseTypes | src/ast_parser/adapters/go_adapter.py:105-149 | without `build_index` the index is untouched; pending references and module map are untouched, relations and nodes only grow, and dedup is preserved |
| GoAdapter.StructRecorded | src/ast_parser/adapters/go_adapter.py:130-149 | every struct declaration gets its class node at the declaration's line and the `CONTAINS` key from the file; with `build_index` its name is indexed to a struct of that name, and to this one when no struct of that name sits on another line |
| GoAdapter.ParseFunctions | src/ast_parser/adapters/go_adapter.py:151-174 | pending references and module map are untouched, relations and nodes only grow, and dedup is preserved |
| GoAdapter.FunctionRecorded | src/ast_parser/adapters/go_adapter.py:154-174 | every named function declaration gets its `Function` node and the `CONTAINS` key from the file |
| GoAdapter.FirstTyped | src/ast_parser/adapters/go_adapter.py:229-241 | the position of the first parameter that names a type, with none naming one before it; the length when none does |
| GoAdapter.ReceiverType | src/ast_parser/adapters/go_adapter.py:222-243 | `None` exactly when no parameter names a type; otherwise the type of the first that does |
| GoAdapter.ValueAndPointerReceiversAgree | src/ast_parser/adapters/go_adapter.py:234-241 | `(r T)` and `(r *T)` name the same type `T` |
| GoAdapter.ParseMethod | src/ast_parser/adapters/go_adapter.py:180-220 | a method with a name and a receiver type that has a class node gets its `Method` node and `DEFINES` key from the first class node of that name; otherwise nothing changes |
| GoAdapter.ParseMethods | src/ast_parser/adapters/go_adapter.py:176-220 | pending references, index and module map are untouched and dedup is preserved |
| GoAdapter.ParseFile | src/ast_parser/adapters/go_adapter.py:28-64 | an unreadable file gives `({}, [])` and leaves the accumulator alone; otherwise the whole accumulated graph, holding the file node, is returned |
| GoAdapter.ParseContents | src/ast_parser/adapters/go_adapter.py:54-58 | the four passes leave the module map alone, only grow relations, pending references and nodes, and preserve dedup |
| PythonAdapter.ModuleBindings | src/ast_parser/adapters/python_adapter.py:79-112 | each child of an `import` statement binds at most one name, and every binding records an `IMPORTS_MODULE` of its own target, whose module is the target's first dotted segment, under its own alias |
| PythonAdapter.SymbolBindings | src/ast_parser/adapters/python_adapter.py:120-157 | each child of a `from` statement binds at most one name, to the symbol qualified by the module (the bare symbol without one), recording an `IMPORTS_SYMBOL` with the module, symbol and alias |
| PythonAdapter.DottedNameBindsItself | src/ast_parser/adapters/python_adapter.py:82-94 | `import a.b` binds `a.b` to itself, with module `a` |
| PythonAdapter.AliasedImportBindsAlias | src/ast_parser/adapters/python_adapter.py:96-112 | `import X as Y` binds `Y` to `X`, with the module the first segment of `X` |
| PythonAdapter.FromImportBindsSymbol | src/ast_parser/adapters/python_adapter.py:138-157 | `from m import s as a` binds `a` to `m.s` and records the symbol `s` under alias `a` |
| PythonAdapter.ModuleNameAlsoBound | src/ast_parser/adapters/python_adapter.py:116-136 | in `from m import s` the module's own dotted name is read as an imported symbol too: `m` is bound to `m.m` and queued before `s` |
| PythonAdapter.ModuleHitsBindings | src/ast_parser/adapters/python_adapter.py:79-112 | every binding of the `import` statements records the module import of its own target |
| PythonAdapter.SymbolHitsBindings | src/ast_parser/adapters/python_adapter.py:115-157 | every binding of the `from` statements records a symbol import from the file node |
| PythonAdapter.ImportBindings | src/ast_parser/adapters/python_adapter.py:74-157 | every binding of the file is an `IMPORTS_MODULE` or `IMPORTS_SYMBOL` from the file node |
| PythonAdapter.ParseImports | src/ast_parser/adapters/python_adapter.py:74-157 | only the alias table and the pending list change; every bound name is in the table, earlier names stay, and exactly one import reference from the file node is appended per binding |
| PythonAdapter.ProcessCall | src/ast_parser/adapters/python_adapter.py:533-595 | outside a function nothing changes; inside, at most one edge or one pending reference is added: an edge is a `CALLS` from the current function to a guessed id ending in `:0`, a pending reference a call through an imported alias |
| PythonAdapter.LocalCallEdge | src/ast_parser/adapters/python_adapter.py:556-564 | a call of a bare non-imported name gives exactly the edge to `Function:{file}:f:0` and nothing pending |
| PythonAdapter.ImportedCallPending | src/ast_parser/adapters/python_adapter.py:546-555 | a call of an imported alias adds no edge and one pending `CALLS` naming the first and last dotted segments of the alias target |
| PythonAdapter.MethodCallOutcome | src/ast_parser/adapters/python_adapter.py:566-595 | `o.m()` is a pending `CALLS_METHOD` when `o` is imported and otherwise exactly the edge to `Method:{file}:m:0` carrying `object` |
| PythonAdapter.FindCalls | src/ast_parser/adapters/python_adapter.py:527-531 | over all calls, every new edge is a `CALLS` and every new pending reference a call, all from the current function; nothing changes outside a function |
| PythonAdapter.BodyCalls | src/ast_parser/adapters/python_adapter.py:295-303 | the calls of a body are all attributed to the definition being read, and the previous current function is restored |
| PythonAdapter.ParamEntries | src/ast_parser/adapters/python_adapter.py:378-398 | at most one entry per child of the parameter list, and none exactly when no child is recognised |
| PythonAdapter.TypedDefaultNotRecorded | src/ast_parser/adapters/python_adapter.py:379-398 | a typed parameter with a default value is not recorded |
| PythonAdapter.ParseFunctionArgs | src/ast_parser/adapters/python_adapter.py:372-402 | `args` is set exactly when the definition has a parameter list with a recognised parameter; other properties and other nodes are untouched |
| PythonAdapter.ParseMethod | src/ast_parser/adapters/python_adapter.py:259-303 | a method without a name is skipped; otherwise its node is added, and inside a class the first appended relation is the class's `DEFINES` to it |
| PythonAdapter.ParseFunction | src/ast_parser/adapters/python_adapter.py:321-370 | a function without a name is skipped; otherwise its node is added, its `CONTAINS` from the file is the first appended relation, and with `build_index` and a module name it is indexed |
| PythonAdapter.ParseFunctions | src/ast_parser/adapters/python_adapter.py:305-319 | reading the top-level functions keeps the file, alias table and module registrations and only extends relations and pending references |
| PythonAdapter.NestedFunctionSkipped | src/ast_parser/adapters/python_adapter.py:309-317 | a definition whose parent is neither the module nor a decorator wrapper directly in the module is not read |
| PythonAdapter.VariableRole | src/ast_parser/adapters/python_adapter.py:441-495 | a class variable exactly in a class outside a function, a local exactly in a function, a global exactly at module level with `is_global`, the global with the `Variable` id prefix and owned by the file |
| PythonAdapter.DefineVariables | src/ast_parser/adapters/python_adapter.py:441-495 | one node of the role's type and one `DEFINES` from the owner per name, in order |
| PythonAdapter.ParseAssignment | src/ast_parser/adapters/python_adapter.py:421-495 | each name bound by the left side, bare or in a pattern list, gets a node of the type its context decides and a `DEFINES` from the owner; with no role nothing changes |
| PythonAdapter.ModuleScopeIff | src/ast_parser/adapters/python_adapter.py:407-419 | the parent walk accepts exactly when some ancestor is the module and none nearer is a function or class definition |
| PythonAdapter.ParseGlobals | src/ast_parser/adapters/python_adapter.py:404-419 | at module level, module-scope assignments add only `DEFINES` edges from the file node |
| PythonAdapter.ParseClassAttribute | src/ast_parser/adapters/python_adapter.py:497-525 | an assignment to a bare name gives a class variable node, with a `DEFINES` from the class exactly when there is a current class |
| PythonAdapter.ParseBase | src/ast_parser/adapters/python_adapter.py:211-233 | a non-identifier base is ignored; an imported one is a pending `EXTENDS` naming the first and last dotted segments of its target; any other an edge to `Class:{file}:{base}:0` |
| PythonAdapter.ParseBases | src/ast_parser/adapters/python_adapter.py:208-233 | each identifier base gives exactly one edge or one pending reference, edges `EXTENDS` from the class and references through imported aliases |
| PythonAdapter.ParseClassAttributes | src/ast_parser/adapters/python_adapter.py:250-254 | class attributes add nodes and relations only, keeping earlier ones |
| PythonAdapter.ParseClassMember | src/ast_parser/adapters/python_adapter.py:242-254 | a method, decorated method or attribute statement keeps the file, alias table and index and only grows the graph |
| PythonAdapter.ParseClassMembers | src/ast_parser/adapters/python_adapter.py:239-254 | the class body keeps the file, alias table and index and only grows the graph |
| PythonAdapter.ParseClass | src/ast_parser/adapters/python_adapter.py:170-257 | a class without a name is skipped; otherwise its node is added, its `CONTAINS` from the file is the first appended relation, and with `build_index` and a module name it is indexed |
| PythonAdapter.ClassBody | src/ast_parser/adapters/python_adapter.py:208-256 | bases and body leave the index alone, and the previous current class is restored |
| PythonAdapter.ParseClasses | src/ast_parser/adapters/python_adapter.py:159-168 | reading the top-level classes keeps the file and alias table and only grows the graph |
| PythonAdapter.ParseFile | src/ast_parser/adapters/python_adapter.py:33-72 | the file is current and the enclosing class and function are kept; an unreadable file changes nothing and gives an empty result; otherwise the result is the graph with the file node, and with `build_index` the module maps to it |
| LegacyPython.ArgInfos | src/ast_parser/parser.py:273-278 | one entry per plain positional parameter, in order, with its name and its annotation when that is a bare name, no default marked yet |
| LegacyPython.MarkAsWritten | src/ast_parser/parser.py:281-287 | the marking loop never changes the number of parameters when it does not raise |
| LegacyPython.NoMarks | src/ast_parser/parser.py:270-278 | `n` parameters, none marked |
| LegacyPython.DefaultMarks | src/ast_parser/parser.py:281-287 | the intended marking has one flag per plain parameter |
| LegacyPython.MarkAsWrittenMarks | src/ast_parser/parser.py:283-287 | the loop as written sets a flag exactly when some default points at it directly or through Python's negative indexing, and does not raise while every index stays at or above `-n` |
| LegacyPython.AsWrittenFailsIff | src/ast_parser/parser.py:281-287 | the loop as written raises `IndexError` exactly when there are more than twice as many defaults as plain parameters |
| LegacyPython.AsWrittenAgreesWhenItSucceeds | src/ast_parser/parser.py:281-287 | when the loop as written does not raise, it marks exactly the trailing parameters defaults cover |
| LegacyPython.PositionalOnlyDefaultRaises | src/ast_parser/parser.py:281-287 | `def f(a=0, /)` makes the loop as written raise |
| LegacyPython.DefaultMarksSpec | src/ast_parser/parser.py:281-287 | the corrected marking never raises and marks parameter `k` exactly when `k + d >= n` |
| LegacyPython.WithMarks | src/ast_parser/parser.py:284-287 | each entry keeps its name and type and takes its default flag from the marking, position by position |
| LegacyPython.ArgValues | src/ast_parser/parser.py:274-290 | one JSON object per parameter, in order |
| LegacyPython.ParseFunctionArgs | src/ast_parser/parser.py:268-290 | the step raises exactly in the as-written case above; otherwise the node's `args` is the JSON of all plain parameters with the trailing ones marked, stored even when empty; nothing else changes |
| LegacyPython.AsWrittenAgreesWhenItSucceeds2 | src/ast_parser/parser.py:281-287 | whichever marking was used, a marking that did not raise is the intended one |
| LegacyPython.SetProp | src/ast_parser/parser.py:215 | setting one property of one node leaves every other node and every other property alone |
| LegacyPython.ImportRelation | src/ast_parser/parser.py:305-311 | an `IMPORTS` from the file node to `Module:<target>` whose `alias` is null exactly when the local name is the imported one |
| LegacyPython.ImportAliases | src/ast_parser/parser.py:292-338 | one `IMPORTS` per alias, in order; the alias table gains exactly the local names of the aliases; nodes and context are untouched |
| LegacyPython.ImportLastWins | src/ast_parser/parser.py:297-325 | after a statement, a local name maps to the target of the last alias that binds it |
| LegacyPython.ImportUntouched | src/ast_parser/parser.py:297-325 | a local name no alias binds keeps its entry |
| LegacyPython.ParseImport | src/ast_parser/parser.py:292-338 | an import statement of either form only appends relations and updates the alias table |
| LegacyPython.NameTargets | src/ast_parser/parser.py:342-344 | only targets that are plain names are recorded |
| LegacyPython.DefineVariables | src/ast_parser/parser.py:342-401 | one node of the given kind and one `DEFINES` from the owner per name, in order, earlier nodes keeping their kinds |
| LegacyPython.ParseAssignment | src/ast_parser/parser.py:340-401 | each plain-name target gets a `Variable`-prefixed id whose node type and `DEFINES` owner follow the context: class attribute, local, or global owned by the file |
| LegacyPython.ParseClassAttribute | src/ast_parser/parser.py:403-426 | each plain-name target gets a `ClassVariable` node and a `DEFINES` from the class |
| LegacyPython.FindCalls | src/ast_parser/parser.py:428-464 | outside a function nothing changes; inside, only `CALLS` from the current function are appended, over the whole subtree |
| LegacyPython.FindCallsClass | src/ast_parser/parser.py:462-464 | outside a function nothing changes; inside, only `CALLS` from the current function are appended, over the children of a class definition |
| LegacyPython.FindCallsDef | src/ast_parser/parser.py:462-464 | outside a function nothing changes; inside, only `CALLS` from the current function are appended, over the children of a function definition |
| LegacyPython.FindCallsIn | src/ast_parser/parser.py:462-464 | outside a function nothing changes; inside, only `CALLS` from the current function are appended, over a list of nodes |
| LegacyPython.FindCallsParams | src/ast_parser/parser.py:462-464 | outside a function nothing changes; inside, only `CALLS` from the current function are appended, over the annotations of a parameter list |
| LegacyPython.CallOfNameReported | src/ast_parser/parser.py:433-443 | a call of a bare name inside a function is reported first, as `CALLS` to `Function:{file}:f:0` |
| LegacyPython.ParseBody | src/ast_parser/parser.py:256-263 | a body only sets properties (the docstring) and appends relations; no node is added |
| LegacyPython.ParseDefinition | src/ast_parser/parser.py:223-266 | the owner's edge comes first and the node exists; the step raises exactly when the parameter step does, and then the definition stays the current function |
| LegacyPython.ParseFunction | src/ast_parser/parser.py:223-266 | a `Function` node with its `CONTAINS` from the file as the first appended relation; the previous function is restored unless the step raised |
| LegacyPython.ParseMethod | src/ast_parser/parser.py:179-221 | a `Method` node with its `DEFINES` from the class as the first appended relation; the previous function is restored unless the step raised |
| LegacyPython.BaseEdges | src/ast_parser/parser.py:151-164 | at most one edge per base, each an `EXTENDS` from the class |
| LegacyPython.ParseClass | src/ast_parser/parser.py:125-177 | a `Class` node with its `CONTAINS` from the file as the first appended relation; with the corrected parameter step it never raises and the previous class is restored |
| LegacyPython.ParseClassBody | src/ast_parser/parser.py:170-174 | the methods and attributes of a class body only grow the graph; with the corrected step they never raise |
| LegacyPython.ParseNode | src/ast_parser/parser.py:111-123 | the module walk only grows the graph, and with the corrected step never raises and leaves the context as it found it |
| LegacyPython.ParseNodes | src/ast_parser/parser.py:113-123 | the walk over a list of nodes only grows the graph, and with the corrected step never raises and leaves the context as it found it |
| LegacyPython.ParseFile | src/ast_parser/parser.py:63-79 | an unreadable file gives an empty result; a walk that raises gives an empty result while the parser keeps what it did; otherwise the result is the whole graph, with the file node |
| LegacyPython.StartFile | src/ast_parser/parser.py:66-73 | the file becomes current and its node is recorded; relations are kept |
| LegacyPython.ParseFiles | src/ast_parser/parser.py:86-92 | parsing files in order only appends relations and adds nodes, the last file read is the current one, and every readable file has its file node |
| LegacyPython.PythonFiles | src/ast_parser/parser.py:86-90 | exactly the walked files whose names end in `.py`, in walk order |
| LegacyPython.PythonFilesAppend | src/ast_parser/parser.py:86-90 | filtering the walk distributes over concatenation |
| LegacyPython.ParseDirectory | src/ast_parser/parser.py:81-92 | the graph is reset; with no `.py` file it stays empty, otherwise the last `.py` file is current and every readable `.py` file has its file node |
| LegacyPython.NonPythonFileIgnored | src/ast_parser/parser.py:86-90 | a walked file whose name does not end in `.py` changes nothing, wherever it comes |
| LegacyPython.SkipNonPython | src/ast_parser/parser.py:86-90 | dropping a non-`.py` file from the walk leaves the filtered list unchanged |
| LegacyPython.NextFile | src/ast_parser/parser.py:86-90 | one more file only appends relations and becomes the current one |
| LegacyPython.CleanWalkMakesGlobals | src/ast_parser/parser.py:120-121 | from a clean context, an assignment the walk reaches is a global variable defined by the file |
| LegacyPython.FailureLeavesStaleContext | src/ast_parser/parser.py:204-208 | as written, a method `m(a=0, /)` makes the file fail with `m` still the current function, so the next file's module-level assignment becomes a local variable |
| LegacyPython.ParseNodeAssign | src/ast_parser/parser.py:120-121 | the walk hands an assignment to the assignment step and cannot raise there |
| LegacyPython.StaleFunctionMakesLocals | src/ast_parser/parser.py:365-382 | while a function is current, every assignment the walk reaches is a local of that function |
| LegacyPython.FixedNeverFails | src/ast_parser/parser.py:69-76 | with the corrected step a readable file always yields its graph |
| Runtime.FreeThreadingAvailable | src/utils/runtime_detection.py:19-31 | available exactly when the build variable is present and equals 1 |
| Runtime.GilEnabled | src/utils/runtime_detection.py:34-52 | the runtime's answer when `sys._is_gil_enabled` exists, otherwise enabled |
| Runtime.ShouldUseThreads | src/utils/runtime_detection.py:55-68 | threads exactly on a free-threaded build whose runtime can be asked and says the GIL is off |
| Runtime.OptimalWorkerCount | src/utils/runtime_detection.py:71-98 | always at least one; an explicit count, else a readable `MAX_WORKERS`, is raised to one but never capped; otherwise the CPU count (four when unknown or zero) capped at eight |
| Runtime.ExplicitCountWins | src/utils/runtime_detection.py:83-84 | an explicit count ignores the environment and probes: 0 and -5 give 1, 16 gives 16 |
| Runtime.CheckGilReenablement | src/utils/runtime_detection.py:159-180 | the current status, and a re-enablement exactly when the GIL was off and is now on |
| Runtime.ReenablementNeedsChange | src/utils/runtime_detection.py:172-173 | within one interpreter a re-enablement is reported exactly when the runtime said off before and on now; an unchanged runtime never reports one |
| Pool.NewManager | src/parallel/pool_manager.py:54-59 | no executor yet; a given non-zero worker count is kept, a missing or zero one becomes the optimal count (at least one); the GIL status at construction is recorded |
| Pool.ChosenKind | src/parallel/pool_manager.py:79-111 | sequential exactly when requested or when `PARALLEL_INDEXING_ENABLED` is false, 0 or no in any case; otherwise threads exactly when a non-empty forced kind is `thread` in any case, or with no forced kind when the runtime should use threads |
| Pool.Enter | src/parallel/pool_manager.py:66-111 | the chosen kind is recorded; an executor exists exactly for a parallel kind, the sequential flag is set exactly for the sequential one, and creating an executor fails exactly for a parallel kind with fewer than one worker |
| Pool.Exit | src/parallel/pool_manager.py:71-74 | the executor is dropped and nothing else changes |
| Pool.Submit | src/parallel/pool_manager.py:124-156 | inline (sequential or no executor) the future is already completed with exactly the call's result or exception; otherwise the call goes to the live executor |
| Pool.MapInline | src/parallel/pool_manager.py:177-179 | one result per item, the function applied to the item at the same position |
| Pool.MapInlineAppend | src/parallel/pool_manager.py:177-179 | mapping a concatenation is the concatenation of the maps, so item order is kept |
| Pool.GetProcessingPool | src/parallel/pool_manager.py:204-246 | an unreadable threshold raises; otherwise the pool is sequential exactly when an item count is given and is below the threshold, or parallel indexing is disabled |
| Pool.DefaultThreshold | src/parallel/pool_manager.py:230-233 | with no argument and no `MIN_FILES_FOR_PARALLEL`, the threshold is 50 |
| Pool.Threshold | src/parallel/pool_manager.py:230-233 | the argument when given; else 50 when `MIN_FILES_FOR_PARALLEL` is unset; else unreadable exactly when the variable does not read as an integer |
| Pool.SmallWorkRunsInline | src/parallel/pool_manager.py:235-250 | a pool for fewer items than the threshold always opens and runs every submitted call inline, whatever the environment or the probes |
| Storage.Storable | src/main.py:276-292 | the result is always storable: a scalar or a list of numbers is kept as it is, anything else becomes its JSON text |
| Storage.StorableIdempotent | src/main.py:276-292 | converting a converted value changes nothing |
| Storage.StoredStringReadsBack | src/main.py:289 | a string property stored as JSON text unescapes back to the original string |
| Storage.StoreProps | src/main.py:320-330 | the same keys, each value converted to a storable one |
| Storage.OtherProps | src/main.py:276-292 | every property except `embedding`, each converted to a storable value |
| Storage.FixedColumns | src/main.py:254-259 | exactly the id, name, file path and line number columns, each storable |
| Storage.OptionalColumns | src/main.py:263-274 | an end line exactly when it is truthy, a snippet exactly when non-empty, the embedding exactly when the node has one, and none of the fixed columns |
| Storage.NodeRowOf | src/main.py:251-301 | labels `Base` and the node type; the four fixed columns; every node property present, the embedding copied as it is and every other property converted; no key outside the properties and the known columns |
| Storage.NodeRowFixedColumns | src/main.py:254-259 | the id, name, path and line columns hold the node's own values unless a property of the same name overrides them |
| Storage.NodeRowEndLine | src/main.py:263-264 | without an overriding property the row has an end line exactly when the node's is truthy, with its value |
| Storage.NodeRowSnippet | src/main.py:266-267 | without an overriding property the row has a snippet exactly when the node's is non-empty, with its text |
| Storage.NodeRowStorable | src/main.py:271-292 | when the node's embedding is storable, every value of the row is storable |
| Storage.NodeRows | src/main.py:237-303 | one row per node in insertion order, each labelled with its node's type and carrying its id |
| Storage.RelationRowOf | src/main.py:316-340 | start, end and type taken from the relation; the same property keys, every value storable and storable values kept |
| Storage.RelationRows | src/main.py:305-342 | one row per relation in order |
| Storage.EmbedText | src/main.py:192-197 | never empty: `File: <name>` for files, else the snippet, else `<type>: <name>` when the snippet is empty |
| Storage.Targets | src/main.py:172-177 | exactly the File, Function, Method and Class nodes, in insertion order, each with its own node |
| Storage.TargetsDistinct | src/main.py:174-177 | a dictionary's targets list every id once, so no node is embedded twice |
| Storage.Chunks | src/main.py:179-180 | slices of at most 20, all non-empty, all but the last exactly 20, which concatenate back to the whole list |
| Storage.ChunkAt | src/main.py:179-180 | element i of batch b is element 20b+i of the whole list |
| Storage.Pick | src/main.py:217-235 | both branches of the length check give the same rule: the j-th returned vector while there is one, a zero vector after |
| Storage.Padded | src/main.py:217-235 | one vector per node: those that came back in order, then zero vectors of the padding length |
| Storage.AssignAll | src/main.py:220-221 | every id gets a vector and every other entry is unchanged; with distinct ids the i-th id gets the i-th vector |
| Storage.BatchTexts | src/main.py:190-201 | one text per node of the batch, the node's embedding text at its position |
| Storage.EmbedBatch | src/main.py:182-235 | exactly the batch's ids are added, other entries unchanged; with distinct ids each node gets the padded vector at its position |
| Storage.EmbedBatchPicks | src/main.py:217-235 | with distinct ids, node i of a batch gets the i-th returned vector, or a zero vector when fewer came back |
| Storage.EmbedBatches | src/main.py:179-235 | after all batches, exactly the ids of the batched nodes have a vector |
| Storage.ComputeVectors | src/main.py:160-235 | vectors exist exactly for the File, Function, Method and Class nodes |
| Storage.Attach | src/main.py:220-235 | the key order and ids are kept; a node with a vector gets exactly that vector as its `embedding` property and every other node is unchanged |
| Storage.GenerateEmbeddings | src/main.py:160-235 | every File, Function, Method and Class node gains a storable embedding and nothing else about it changes; every other node is unchanged; the padding length is the provider's dimension, else 1536 |
| Storage.EmbeddedRowsStorable | src/main.py:110-121 | embedding and then converting produces node rows whose every value is storable, given no node started with an unstorable embedding |
| OpenAiCompatible.NewProvider | src/embeddings/openai_compatible.py:8-15 | key, endpoint, model and key name are kept, and the dimension is the one inferred from the model, within 8..16384 |
| OpenAiCompatible.DimDigitsAt | src/embeddings/openai_compatible.py:118 | a match of the first alternative is three or four digits followed by `d` at that position, four when four are there |
| OpenAiCompatible.SuffixDigitsAt | src/embeddings/openai_compatible.py:118 | a match of the second alternative is a dash and two to four digits at that position, followed by an optional `b`, an optional `d` and the end |
| OpenAiCompatible.SearchFrom | src/embeddings/openai_compatible.py:118-121 | a match captures two to four digits |
| OpenAiCompatible.SuffixDimension | src/embeddings/openai_compatible.py:116-128 | a numeric suffix is used only when it lies within 8..16384 |
| OpenAiCompatible.FamilyDimension | src/embeddings/openai_compatible.py:86-114 | a known family gives one of 768, 1024, 1536, 2560, 3072 and 4096 |
| OpenAiCompatible.InferDimension | src/embeddings/openai_compatible.py:76-131 | always within 8..16384: 1536 for an empty name; otherwise the first family found in the lower-cased name decides, then a valid numeric suffix, then 1536 |
| OpenAiCompatible.NoFamilyFallsThrough | src/embeddings/openai_compatible.py:86-114 | a name containing none of the shorter family names matches no family at all |
| OpenAiCompatible.InferIgnoresCase | src/embeddings/openai_compatible.py:84 | a model name and its lower-case form get the same dimension |
| OpenAiCompatible.SearchFindsDashSuffix | src/embeddings/openai_compatible.py:118 | in a digit-free name followed by a dash and two to four digits, the search captures exactly those digits |
| OpenAiCompatible.DashSuffixDimension | src/embeddings/openai_compatible.py:116-126 | a model from no known family named `…-<digits>` gets that number as its dimension when it lies within 8..16384 |
| OpenAiCompatible.BlankIffStripsEmpty | src/embeddings/openai_compatible.py:27 | a text is blank exactly when stripping it leaves nothing |
| OpenAiCompatible.EmbedText | src/embeddings/openai_compatible.py:25-42 | a text blank after truncation gets zeros without a call; otherwise the stripped truncated text is sent, and a failed call also gives zeros |
| OpenAiCompatible.NonBlankAt | src/embeddings/openai_compatible.py:46 | each non-blank text sits, among the non-blank ones, at the position given by the count of non-blank texts before it |
| OpenAiCompatible.Filtered | src/embeddings/openai_compatible.py:46 | one text sent per non-blank input |
| OpenAiCompatible.FilteredAt | src/embeddings/openai_compatible.py:46 | each non-blank text is sent stripped, at the position counting the non-blank texts before it, and what is sent is never blank |
| OpenAiCompatible.IndexMap | src/embeddings/openai_compatible.py:57 | every returned index is a key, and every key carries a vector returned under that index |
| OpenAiCompatible.RealignAt | src/embeddings/openai_compatible.py:59-67 | a blank text gets zeros; a non-blank one gets the vector returned under its position among the non-blank texts, or zeros when none came back |
| OpenAiCompatible.EmbedBatchAsWritten | src/embeddings/openai_compatible.py:44-74 | one vector per input text, with indices handed out by testing the original texts |
| OpenAiCompatible.Respond | src/embeddings/openai_compatible.py:46-74 | one vector per text; all zeros when nothing is left to send or the call fails |
| OpenAiCompatible.RespondAt | src/embeddings/openai_compatible.py:57-67 | each text gets the vector returned under the position at which it was sent, and a blank text gets zeros |
| OpenAiCompatible.EmbedBatch | src/embeddings/openai_compatible.py:44-74 | one vector per text; all zeros when every text is blank after truncation or the call fails |
| OpenAiCompatible.EmbedBatchAligned | src/embeddings/openai_compatible.py:44-74 | each text gets the vector returned under the position at which that same truncated text was sent; a text blank after truncation, one left out of the answer, or a failed call gives zeros |
| OpenAiCompatible.AllBlankNeedsNoCall | src/embeddings/openai_compatible.py:46-48 | when every text is blank after truncation, the service is not consulted and every vector is zero |
| OpenAiCompatible.AsWrittenAgreesWhenTruncationKeepsBlankness | src/embeddings/openai_compatible.py:44-67 | when truncation changes no text's blankness, the code as written and the corrected alignment give the same vectors |
| OpenAiCompatible.AsWrittenMisaligns | src/embeddings/openai_compatible.py:59-67 | for two texts where the first becomes blank after truncation, the code as written gives the first the second's vector and the second zeros, while the corrected version gives zeros and then the right vector |
| Factory.KeyVariable | src/embeddings/factory.py:9-24 | the key variable is never empty; each named service has its own and every other name uses `EMBEDDING_API_KEY` |
| Factory.BaseUrl | src/embeddings/factory.py:9-24 | a known service has a fixed non-empty endpoint; any other name reads `EMBEDDING_API_BASE_URL` |
| Factory.GetEmbeddingProvider | src/embeddings/factory.py:5-32 | succeeds exactly when the key and the endpoint are both non-empty; a missing key is reported first and names its variable; on success the provider holds the key, endpoint and `EMBEDDING_MODEL` (the small OpenAI model when unset) with the inferred dimension |
| Factory.KnownNeedsOnlyKey | src/embeddings/factory.py:9-27 | for OpenAI, Google and DeepInfra only the key can be missing |
| Factory.ProviderNameIgnoresCase | src/embeddings/factory.py:6 | the provider name in any letter case gives the same outcome as its lower-case form |
| Factory.GenericNeedsBaseUrl | src/embeddings/factory.py:21-30 | for any other name, a key without a non-empty `EMBEDDING_API_BASE_URL` fails with the base-URL message |
| Factory.OpenAiByDefault | src/embeddings/factory.py:6 | with `EMBEDDING_PROVIDER` unset, OpenAI is chosen |
| Embedder.Or | src/embeddings/embedder.py:19-20 | Python's `or`: the value when set and non-empty, else the fallback |
| Embedder.NewOpenAIEmbeddings | src/embeddings/embedder.py:15-23 | fails exactly for a missing or empty key; otherwise the endpoint is the first non-empty of the argument, `EMBEDDING_API_BASE_URL`, `OPENAI_API_BASE` and the OpenAI URL, and the model the first non-empty of the argument, `EMBEDDING_MODEL` and the small OpenAI model |
| Embedder.ExplicitArgumentsWin | src/embeddings/embedder.py:19-20 | non-empty arguments make the environment irrelevant |
| Embedder.DefaultsWithEmptyEnvironment | src/embeddings/embedder.py:19-20 | with only a key, the OpenAI endpoint and `text-embedding-3-small` are used |
| Embedder.PrepareCodeText | src/embeddings/embedder.py:46-48 | the text starts with `<type> <name>:` and a newline, ends with the code, and adds exactly three characters |
| Embedder.SplitFirst | src/embeddings/embedder.py:46-48 | a split at the first occurrence puts that character in neither the head nor the rest, and there is none exactly when the character is absent |
| Embedder.SplitFirstJoin | src/embeddings/embedder.py:46-48 | splitting a joined text at a character absent from its head gives back the head and the rest |
| Embedder.ReadPrepared | src/embeddings/embedder.py:46-48 | whatever is read back re-prepares into the same text |
| Embedder.PrepareRoundTrip | src/embeddings/embedder.py:46-48 | a prepared text reads back into its code, type and name when the type has no space or newline and the name no newline |
| Embedder.PrepareAll | src/embeddings/embedder.py:58 | one prepared text per node, position by position |
| Embedder.EmbedCodeNode | src/embeddings/embedder.py:50-52 | the prepared text is never blank, so without truncation the service's answer for it is returned, or zeros on failure |
| Embedder.EmbedCodeNodesBatch | src/embeddings/embedder.py:54-59 | fails exactly when the three lists differ in length; otherwise one vector per node from the provider's `embed_batch` as written, which equals the aligned batch answer whenever truncation leaves every prepared text non-blank |
| Embedder.StoreBatchesNeverRaise | src/embeddings/embedder.py:54-59 | the graph store's batches always have lists of one length, so the batch call succeeds and returns one vector per node |

## Left out

- Reading files, `os.walk`, `print` and logging. File lists, file contents and syntax trees are inputs.
- Building syntax trees with tree-sitter, ast-grep or `ast.parse`. A tree is an input value, and a failed parse is an absent tree.
- The tree library itself. `Syntax.FindAll` stands in for ast-grep's `find_all` and tree-sitter's query captures, in document order. A parent check reads the ancestor kinds recorded with each hit.
- The second pass of `multi_parser.py` (lines 280-302). It delegates to an `ASTParser._process_pending_imports` that src/ast_parser/parser.py does not define. The model keeps it as the abstract `pass2` parameter and invents no resolution rules for it. The one concrete resolver, in typescript_parser.py, is modelled.
- Per-file parsing in the coordinator takes a `Runner` parameter, whose real instance is `Coordinator.Run`. This keeps generic merge and routing lemmas apart from the eight extractors.
- `ASTParser.parse_file` takes no `build_index` argument, while multi_parser.py passes one. So in the coordinator the legacy Python parser raises `TypeError` on every file (`Coordinator.Run`, `Coordinator.LegacyPythonYieldsNothing`).
- After a raise, `_parse_with_fallback` merges only the fallback parser's indexes and pending references. Its nodes and relations are returned to the caller but never enter the coordinator's own graph. The model keeps this behaviour as written.
- `.h` is detected as C, which has no adapter, yet `_get_parser_for_file` routes `.h` to the C++ adapter. The model keeps both as written.
- The TypeScript parser pairs the arrow-function captures and the name captures by index. The model pairs each name with its arrow function per declarator, which is what the query captures.
- `sysconfig`, `sys._is_gil_enabled` and `os.cpu_count` are parameters (`Runtime.Probe`).
- Real thread and process executors, futures scheduling, `shutdown` and `KeyboardInterrupt`. An executor is represented by its kind, and a future by its outcome or the executor it went to.
- `Text.ParseInt` models `int()` on surrounding whitespace, an optional sign and ASCII digits. It does not accept underscores or non-ASCII digits, so such a `MAX_WORKERS` or `MIN_FILES_FOR_PARALLEL` is treated as unreadable.
- `Text.Lower` and the regular expression's `\d` are ASCII only. Unicode case mapping and Unicode digits are not modelled. `str.isspace` is modelled with Python's full whitespace set.
- Token truncation with tiktoken is the abstract `truncate` parameter. The embedding HTTP call is the abstract `call` parameter.
- The rate-limit retry and its 60-second sleep. A call's result is its final outcome after any retries.
- Float rendering in `json.dumps` is the parameter `showReal`. The float contents of vectors are `real`, and only lengths and zero vectors matter.
- The Neo4j driver (graph_db.py), the MCP server and the sample codebases.
- Embedder.EmbedCodeNode: the result is stated only for a truncation that leaves the prepared text unchanged. In every case it is the provider's `embed_text` of that text.
- OpenAiCompatible.SearchFrom: its contract states only the shape of what is captured. That it is the leftmost match is shown for the usual `…-<digits>` names by `OpenAiCompatible.SearchFindsDashSuffix`, not in general.
- Storage.EmbedBatches: its contract states which ids receive a vector. The value each one receives is stated per batch by `Storage.EmbedBatch` and `Storage.EmbedBatchPicks`.
- OpenAiCompatible.EmbedBatchAsWritten: its contract states only the length. Its misalignment is exhibited by `OpenAiCompatible.AsWrittenMisaligns`.
- Embedder.EmbedCodeNodesBatch: it calls the provider's `embed_batch` as written. Its result is tied to the aligned batch only when truncation leaves every prepared text non-blank; otherwise the misalignment `OpenAiCompatible.AsWrittenMisaligns` shows can occur.

## Findings

| source | as written | input that shows it | evidently intended | confidence | as-written member | corrected member |
|---|---|---|---|---|---|---|
| src/ast_parser/parser.py:281-287 | `_parse_function_args` counts only `args.args` but pairs them with `args.defaults`, which also covers positional-only parameters. With more than twice as many defaults as plain parameters the negative index runs off the list and raises `IndexError`, and the whole file yields `({}, [])`. | `def f(a=0, /): pass` | mark the plain parameters that the trailing defaults cover, and never raise | not executed | LegacyPython.AsWrittenFailsIff | LegacyPython.DefaultMarksSpec |
| src/ast_parser/typescript_parser.py:181-195 | `_parse_tree` extracts classes before imports. So when `_extract_class_inheritance` runs, the import table is still empty, and an imported parent class is never deferred as a pending `EXTENDS`. | `import { Base } from './base'; class A extends Base {}` | read the imports first, so that an imported parent becomes a pending `EXTENDS` | not executed | TsParser.AsWrittenNeverDefersParent | TsParser.ImportsFirstDefersImportedParents |
| src/embeddings/openai_compatible.py:59-67 | `embed_batch` sends the truncated texts but hands out response indices by testing the original texts. A text that is not blank but becomes blank after truncation takes the index of the next text sent. | two texts, the first of which truncates to whitespace | test the truncated texts, so that each text gets the vector returned for itself | not executed | OpenAiCompatible.AsWrittenMisaligns | OpenAiCompatible.EmbedBatchAligned |
