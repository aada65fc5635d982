# Hydra target navigator: a Dafny model of its string-processing core

The extension connects Hydra YAML configurations with the Python code they
name. A configuration refers to a class or function through a `_target_`
value such as `src.models.isar.IsarClassifier`. The extension does three things:

- It finds the `_target_` value that belongs to the clicked line.
- It resolves the value to a `.py` file in the workspace and finds the
  declaration line in that file.
- It shows the symbol's parameter names and docstring.

The "copy as Hydra" command works the other way. It turns a symbol selected in
a Python file into a YAML snippet: a `_target_` line with the dotted path, then
one line per parameter.

This project models that core in Dafny and proves what each operation
computes:

- `TargetFinder` (`target_finder.dfy`): the YAML walk that collects every
  `_target_` (`collectTargets`) and the choice for the clicked line
  (`findHydraTargetValue`). The parsed YAML tree is an input.
- `PathResolver` (`path_resolver.dfy`): dotted path to module file
  (`pythonPathToFilePath`) and the declaration-line scan
  (`findSymbolDefinitionLine`). The workspace root and the set of existing
  files are inputs.
- `Signature` (`signature.dfy`): parameter-list processing (`processParams`)
  and the two regular-expression strategies of `extractSignature`. The
  regular expressions are written out as leftmost-match searches, with the
  backtracking of `\s+` into a name that begins with white space.
- `DocString` (`docstring.dfy`): the line scanner of `getDocString`. It is
  proved equal to a declarative definition: skip blank lines, then a one-line
  docstring or a block.
- `Snippet` (`snippet.dfy`): the dotted module path of a relative file path
  and the snippet built with `snippet +=`.
- `Strings` (`strings.dfy`): the JavaScript string operations the code relies
  on. `trim` removes ECMAScript white space and line terminators. `split` on
  one character, `join`, `indexOf`, `includes`, `startsWith` and `endsWith`
  are modelled, and so is splitting text on `/\r?\n/`.

Two choices follow the code exactly:

- Only non-empty string `_target_` values are collected. The code tests the
  value for truthiness, so an empty string is skipped.
- An empty parameter capture (`()`) counts as no match. `extractSignature`
  then tries the next strategy.

## Model

| member | source | states |
|---|---|---|
| TargetFinder.Lookup | src/yamlUtils.ts:57 | the value found under a key belongs to an entry with that key; None means no entry has the key |
| TargetFinder.OwnTarget | src/yamlUtils.ts:57-58 | a node contributes at most one target of its own. It contributes `[t]` exactly when it is a mapping whose `_target_` is a non-empty string `t` |
| TargetFinder.IsObject | src/yamlUtils.ts:56 | the non-null objects, mappings and sequences, are the only values the walk descends into and, at line 18, the only documents accepted (definition) |
| TargetFinder.CollectTargets | src/yamlUtils.ts:55-69 | appends to the caller's accumulator exactly the node's targets: the mapping's own `_target_` first, then its children in order |
| TargetFinder.CollectItems | src/yamlUtils.ts:60-63 | the element loop appends the targets of every element, in element order |
| TargetFinder.CollectEntries | src/yamlUtils.ts:64-67 | the key loop appends the targets of every value, in key order |
| TargetFinder.ItemTargets | src/yamlUtils.ts:60-63 | the targets of a list of elements: those of each element, in element order; none is empty (definition) |
| TargetFinder.EntryTargets | src/yamlUtils.ts:64-67 | the targets of a mapping's values: those of each value, in key order; none is empty (definition) |
| TargetFinder.TargetsArePreorderOwnTargets | src/yamlUtils.ts:55-69 | the collected list equals the own targets of every node taken in pre-order: a mapping comes before its descendants, and duplicates at different positions are all kept |
| TargetFinder.ItemTargetsAppend | src/yamlUtils.ts:61-63 | the targets of concatenated element lists are the concatenation of their targets |
| TargetFinder.EntryTargetsAppend | src/yamlUtils.ts:65-67 | the targets of concatenated mapping entries are the concatenation of their targets |
| TargetFinder.Targets | src/yamlUtils.ts:55-69 | no target of a node or of anything below it is the empty string (the pre-order reading is TargetsArePreorderOwnTargets) |
| TargetFinder.FindHydraTargetValue | src/yamlUtils.ts:8-50 | these cases give no result: a parse failure, a scalar or null document, a line with neither `_target_` nor a dotted word, and zero targets. One target is returned whatever the line. With several, the result is the first target contained in the line, or the first target when none is. A defined result is always a collected target |
| TargetFinder.LineGuard | src/yamlUtils.ts:24 | a line that passes the guard mentions `_target_` or holds a dot |
| TargetFinder.DotBetweenWords | src/yamlUtils.ts:24 | `[A-Za-z_0-9]+\.[A-Za-z_0-9]+` matches somewhere exactly when some dot has a word character on each side (definition) |
| PathResolver.NonEmptySegments | src/utils.ts:28 | the kept segments are non-empty, no more than the input, and all segments when none is empty (which ones, in order: NonEmptySegmentsAppend and NonEmptySegmentsSingle) |
| PathResolver.NonEmptySegmentsAppend | src/utils.ts:28 | filtering distributes over concatenation, so segments are kept in their order |
| PathResolver.NonEmptySegmentsSingle | src/utils.ts:28 | a single segment is kept exactly when it is non-empty: together with the append law, exactly the non-empty segments are kept, in order |
| PathResolver.JoinPath | src/utils.ts:28 | `path.join` never gives the empty text, and for one or more non-empty segments it is their join with `/` |
| PathResolver.ModuleFile | src/utils.ts:28-30 | under a non-empty root the file is `<root>/` followed by the joined module segments and `.py` |
| PathResolver.ModuleParts | src/utils.ts:21-27 | a qualified path has at least one module segment |
| PathResolver.IsQualified | src/utils.ts:22 | the dotted path splits into two or more segments, the case in which the code goes on (definition) |
| PathResolver.PythonPathToFilePath | src/utils.ts:11-36 | undefined without a workspace or without a dot. The result is defined exactly when the path has two or more segments and the module file under the root exists. A defined result is that module file, and it exists |
| PathResolver.ModulePartsOfQualified | src/utils.ts:21-27 | `<module>.<symbol>` with a dot-free symbol is qualified, and its module segments are the dot-split of `<module>` |
| PathResolver.SymbolDoesNotAffectFile | src/utils.ts:27-28 | two dotted paths that differ only in the symbol name resolve to the same result |
| PathResolver.ModuleFileOfPlainSegments | src/utils.ts:28-30 | with non-empty segments the file is `<root>/<m1>/.../<mk>.py` |
| PathResolver.FindSymbolDefinitionLine | src/utils.ts:43-57 | the result is a line index of the split text. No earlier line declares the symbol. The line at the result declares it, or the result is 0 and no line does |
| PathResolver.FindDefinitionLine | src/utils.ts:48-56 | the loop returns the first line whose trimmed text starts with `class <name>` or `def <name>`, or 0 when there is none |
| PathResolver.IsDefinitionOf | src/utils.ts:49-50 | a line declares the name when its trimmed text starts with `class <name>` or `def <name>` (definition) |
| PathResolver.DefinitionPrefix | src/utils.ts:50 | matching is a prefix test: a declaration of `FooBar` also counts as one of `Foo` |
| Strings.Trim | src/utils.ts:49 | the result neither starts nor ends with white space and is no longer than its input (which text it is: TrimIsSlice) |
| Strings.TrimIsSlice | src/utils.ts:49 | the trimmed text is a slice `s[a..b]` of the input, and every character before `a` and from `b` on is white space: only leading and trailing white space is removed |
| Strings.IsSpace | src/utils.ts:49 | the ECMAScript white-space and line-terminator characters: what `trim` removes and what `\s` matches in src/extension.ts:228 and 234 (definition) |
| Strings.TrimAll | src/extension.ts:248 | every part trimmed, in order; as many results as parts |
| Strings.IndexOf | src/extension.ts:252 | the first index holding the character, or -1 exactly when it is absent |
| Strings.Split | src/extension.ts:248 | the pieces contain no separator and join back to the input |
| Strings.SplitLines | src/utils.ts:45 | splitting text into lines gives at least one line (what the lines are: SplitLinesPieces) |
| Strings.SplitLinesPieces | src/utils.ts:45 | the lines are the pieces between line feeds, one per piece. Each line but the last loses the carriage return at its end, if it has one, and no line holds a line feed |
| Strings.SplitLinesWithoutCarriageReturns | src/utils.ts:45 | text without carriage returns splits into lines exactly at its line feeds |
| Strings.JoinEnds | src/extension.ts:127-128 | a join starts with its first part and ends with its last |
| Strings.Join | src/extension.ts:127-128 | `join`: the parts with the separator between each two, the empty text for no parts (definition; JoinAppendOne, SplitJoin and JoinEnds state its properties) |
| Strings.Contains | src/yamlUtils.ts:24 | `includes`: the text occurs at some index (definition) |
| Strings.StartsWith | src/utils.ts:50 | `startsWith`: the text's prefix of the given length is the given text (definition) |
| Strings.EndsWith | src/extension.ts:204 | `endsWith`: the text's suffix of the given length is the given text (definition) |
| Strings.ReplaceChar | src/extension.ts:125 | every occurrence of one character is replaced and nothing else changes |
| Strings.SplitJoin | src/extension.ts:127-128 | splitting the join of separator-free pieces gives the pieces back |
| Strings.JoinSplitReplaces | src/extension.ts:127-128 | split on one character then joined with another is the same as replacing that character |
| Signature.Before | src/extension.ts:252-254 | the text before the first occurrence of a character: a prefix without it, the whole text when the character is absent |
| Signature.StripParam | src/extension.ts:252-261 | a stripped parameter holds neither `=` nor `:`. A trimmed parameter becomes its text before the first `=`, trimmed, then cut before the first `:`, trimmed again. Text without either character is unchanged |
| Signature.KeepParams | src/extension.ts:250 | the kept tokens are tokens of the input, and none is empty, `self` or `cls` |
| Signature.IsDropped | src/extension.ts:250 | the trimmed tokens the filter removes: the empty text, `self` and `cls` (definition) |
| Signature.StripAll | src/extension.ts:250-262 | one stripped result per kept token, position by position |
| Signature.ProcessParams | src/extension.ts:246-263 | no more names than comma-separated tokens, and no name holds `=` or `:` |
| Signature.ProcessParamsConcat | src/extension.ts:248-250 | tokens are processed independently and in order: the names of `a,b` are those of `a` followed by those of `b` |
| Signature.ProcessParamsToken | src/extension.ts:248-262 | one token is dropped exactly when its trimmed text is empty, `self` or `cls`, the whole token being compared. Otherwise it gives exactly one stripped name |
| Signature.ProcessParamsEmpty | src/extension.ts:246-263 | the empty parameter list gives no names |
| Signature.StripParamOfName | src/extension.ts:252-261 | an identifier followed by `=` or `:` and anything else is stripped to the identifier |
| Signature.ProcessParamsNamedToken | src/extension.ts:248-262 | a token ` <name>=...` or ` <name>:...` gives exactly `[name]` |
| Signature.ProcessParamsName | src/extension.ts:248-262 | a bare identifier other than `self` and `cls` gives itself |
| Signature.ProcessParamsExample | src/extension.ts:246-263 | `a, b=<default>, c: <annotation>` gives `[a, b, c]` for every such list, which includes `a, b=1, c: int = 2` |
| Signature.ReceiverDropped | src/extension.ts:250 | a leading `self`, `cls` or blank token contributes nothing |
| Signature.SpaceRun | src/extension.ts:234 | the greedy `\s*` stops at the first non-white-space character |
| Signature.CloseParen | src/extension.ts:234 | `[^)]*` stops at the first `)` or at the end of the text |
| Signature.ParamListAt | src/extension.ts:234 | a capture of `\(([^)]*)\):` at an index is an opening parenthesis there, the captured text without any `)`, then `)` and `:`; the capture exists whenever the first `)` after the parenthesis is followed by `:` (the converse is ParamListCaptures) |
| Signature.DefAt | src/extension.ts:234 | a capture of the function pattern holds no `)` and starts with `def` at that index (its parts: DefAtMeaning; the converse: DefAtWhenLaidOut) |
| Signature.ClassMatchAt | src/extension.ts:228 | a match of the class pattern at an index starts with `class` there (its parts: ClassMatchAtMeaning; the converse: ClassMatchWhenLaidOut) |
| Signature.BacktrackSpaces | src/extension.ts:228-234 | a greedy `\s+` with `w` white-space characters available gives a match exactly when the rest matches after some `1..w` of them, and takes the longest such run |
| Signature.NameThenParams | src/extension.ts:234 | a match of `<name>\s*\(([^)]*)\):` at an index starts with the name there |
| Signature.NameThenParamsMeaning | src/extension.ts:234 | such a match is the name, then white space (none when the pattern has no `\s*`), then the parameter list, whose capture it is |
| Signature.DefAtMeaning | src/extension.ts:234 | a match of `def\s+<name>...` is `def`, one or more white-space characters, then the name and its parameter list, whose capture it is |
| Signature.DefAtWhenLaidOut | src/extension.ts:234 | conversely, `def`, any non-empty white-space run and then the name with a parameter list make a match, even when the name takes part of the white space |
| Signature.ClassNameAt | src/extension.ts:228 | the class pattern after its `\s+` matches exactly when the name occurs, a word boundary follows it, and a `def __init__(...)` follows somewhere after; its capture is the first one |
| Signature.ClassMatchAtMeaning | src/extension.ts:228 | a class match is `class`, one or more white-space characters, then the name, a word boundary and the first `__init__` after it |
| Signature.ClassMatchWhenLaidOut | src/extension.ts:228 | conversely, `class`, any non-empty white-space run and then the rest of the pattern make a match, even when the name takes part of the white space |
| Signature.SearchInit | src/extension.ts:228 | the lazy `[\s\S]*?def\s+__init__\(([^)]*)\):` from an index: the leftmost `__init__` declaration (stated by SearchInitLeftmost) |
| Signature.SearchInitLeftmost | src/extension.ts:228 | the search finds a declaration exactly when one starts at or after the index, and it gives the first one: none starts between the index and it |
| Signature.SearchClass | src/extension.ts:228-229 | `fileContent.match(classRegex)`: the leftmost class match (stated by SearchClassLeftmost) |
| Signature.SearchClassLeftmost | src/extension.ts:228-229 | the class strategy matches exactly when some start position does, and gives the match at the least such position |
| Signature.SearchFunction | src/extension.ts:234-235 | `fileContent.match(funcRegex)`: the leftmost function match (stated by SearchFunctionLeftmost) |
| Signature.SearchFunctionLeftmost | src/extension.ts:234-235 | the function strategy matches exactly when some start position does, and gives the match at the least such position |
| Signature.FirstMatch | src/extension.ts:229 | there is a match exactly when some start position has one, and the result is the match at the least such position |
| Strings.IsWordChar | src/extension.ts:228 | the word characters of `\b` and of `[A-Za-z_0-9]` in src/yamlUtils.ts:24: ASCII letters, digits and `_` (definition) |
| Signature.WordBoundary | src/extension.ts:228 | `\b` after the name: exactly one of the characters on either side of the index is a word character, the text's ends counting as non-word (definition) |
| Signature.ExtractSignature | src/extension.ts:226-240 | the class strategy's non-empty capture is processed first, then the function strategy's, and otherwise no names. No name holds `=` or `:` |
| Signature.NoClassHeader | src/extension.ts:228-229 | text without the word `class` never matches the class strategy |
| Signature.ExtractSignatureOfFunction | src/extension.ts:234-238 | a file opening with `def <name>(<params>):` and without `class` gives the names of `<params>` |
| Signature.ExtractSignatureOfClass | src/extension.ts:228-232 | a file opening with `class <name>:`, white space and `def __init__(<params>):` gives the names of `<params>`, whatever follows |
| Signature.DefAtIndices | src/extension.ts:234 | the function pattern at a `def <name>(<params>):` position captures `<params>` |
| Signature.SearchInitAt | src/extension.ts:228 | the lazy gap after a class header stops at the first `def __init__(`: when no declaration starts between the header and index `d`, and `def __init__(<params>):` starts at `d`, the capture is `<params>` |
| Signature.ParamListCaptures | src/extension.ts:234 | `(<params>):` at an index, with no `)` in `<params>`, captures `<params>` |
| Signature.GapHasNoInit | src/extension.ts:228 | a colon followed by white space holds no start of `def __init__` |
| Signature.ClassMatchAtIndices | src/extension.ts:228 | `class <name>:`, white space and `def __init__(<params>):` at the start of a text give the capture `<params>` |
| Signature.LeadingSpaceIndices | src/extension.ts:228 | for a symbol name ` <name>`, the text `class  <name>:def __init__(<params>):` matches at index 0: `\s+` gives one space back to the name |
| Signature.LeadingSpaceBacktracks | src/extension.ts:228 | on `class  <name>:` with the symbol name ` <name>`, `\s+` first takes both spaces, the name fails there, and one space is given back: the match goes on after the name |
| Signature.ExtractSignatureLeadingSpace | src/extension.ts:226-232 | a symbol name that begins with a space still finds its class: `class  F:def __init__(a):` with the name ` F` gives `[a]`, and so does every file of that shape |
| DocString.OpeningDelimiter | src/extension.ts:193-195 | a line opens with `"""` or `'''`, and `"""` wins when both apply. None exactly when the line starts with neither |
| DocString.NextNonBlank | src/extension.ts:187-191 | the first non-empty line from the start on; every line skipped is empty |
| DocString.AfterOpen | src/extension.ts:199 | an opening line's text after its delimiter, trimmed (definition) |
| DocString.Between | src/extension.ts:197 | a one-line docstring's text between its delimiters, trimmed (definition) |
| DocString.BeforeClose | src/extension.ts:205 | a closing line's text before its delimiter, trimmed (definition) |
| DocString.IsOneLiner | src/extension.ts:196 | a line is a one-liner when it is longer than twice the delimiter and ends with it (definition) |
| DocString.BlockLines | src/extension.ts:203-209 | a block's further lines: each whole until one ends with the delimiter, of which the text before it is kept; every remaining line when none does (definition) |
| DocString.BlockOf | src/extension.ts:196-209 | a block's lines: the opening line's remainder, then its further lines (definition) |
| DocString.DocFrom | src/extension.ts:184-219 | there is a docstring exactly when the first non-blank line after the declaration opens with `"""` or `'''` |
| DocString.GetDocString | src/extension.ts:180-219 | the result for the file text is the declarative docstring of its trimmed lines after the declaration line |
| DocString.ScanDocString | src/extension.ts:184-214 | the loop's state machine computes the declarative docstring of the trimmed lines |
| DocString.ScanFrom | src/extension.ts:184-214 | the loop read as a recursive function: once a block holds a line, the scan ends with a docstring, closed or not |
| DocString.ScanIsDocFrom | src/extension.ts:187-214 | the scan, read as a recursive function, equals the declarative definition from every line on |
| DocString.ScanBlock | src/extension.ts:203-213 | once a block is open, the result is what was collected followed by the block's further lines, joined and trimmed |
| DocString.SkipBlankLines | src/extension.ts:189-191 | blank lines before the first non-blank line are skipped |
| DocString.DocFromBlock | src/extension.ts:199-214 | a block opening gives the joined, trimmed block lines |
| DocString.DocStringSummary | src/extension.ts:193-197 | `"""summary"""` or `'''summary'''` after blank lines gives the trimmed summary, and no later line is read |
| DocString.DocStringNotOpened | src/extension.ts:187-202 | when the first non-blank line opens with neither delimiter, or there is none, there is no docstring |
| DocString.DocStringBlock | src/extension.ts:203-213 | a closed block gives the opening remainder, the lines between and the closing line's text before the delimiter, joined with line feeds and trimmed |
| DocString.DocStringUnterminated | src/extension.ts:207-214 | a block that is never closed gives every line accumulated up to the end of the file |
| DocString.BlockLinesUntilClose | src/extension.ts:203-209 | only a line ending with the opening delimiter closes the block. Earlier lines are collected whole, including lines ending with the other delimiter |
| DocString.BlockLinesUnterminated | src/extension.ts:207-211 | without a closing line the block collects every remaining line |
| DocString.DelimitersDiffer | src/extension.ts:204 | a line ending with `'''` does not end with `"""` |
| DocString.EmptyOneLinerOpensBlock | src/extension.ts:196-199 | `""""""` is not a one-liner: it opens a block whose first line is `"""` |
| Snippet.StripPySuffix | src/extension.ts:126 | a trailing `.py` is removed, and other text is unchanged |
| Snippet.ModulePath | src/extension.ts:124-128 | the module path is the relative path with backslashes made slashes, `.py` dropped and every slash made a dot |
| Snippet.FullDottedPath | src/extension.ts:129 | read back as a dotted path, `<module path>.<symbol>` has the module path's segments followed by the symbol name, for a dot-free symbol |
| Snippet.BuildSnippet | src/extension.ts:141-148 | the built text is the `_target_` line followed by one `<param>: ` line per parameter, or the no-parameters line |
| Snippet.ParamLines | src/extension.ts:143-145 | one `<param>: ` line per parameter, each ended by a line feed, in order (definition) |
| Snippet.SnippetText | src/extension.ts:141-148 | the `_target_` line, then the parameter lines or the no-parameters line (definition) |
| Snippet.SnippetLines | src/extension.ts:141-148 | the snippet read as lines: `_target_: <path>`, then `<param>: ` per parameter or `# No parameters detected...` (definition) |
| Snippet.CopyAsHydra | src/extension.ts:124-148 | the snippet for a relative path, a symbol and its parameters is the snippet of `<module path>.<symbol>` |
| Snippet.ModulePathReplacesSeparators | src/extension.ts:124-128 | the module path contains no slash and no backslash |
| Snippet.ParamLinesJoin | src/extension.ts:143-145 | the header line and the parameter lines are the line-feed join of those lines, plus a final line feed |
| Snippet.SnippetLineStructure | src/extension.ts:141-148 | read line by line, the snippet is `_target_: <path>`, then one `<param>: ` line per parameter in order (or `# No parameters detected...`), then an empty last line |
| Snippet.DottedPathRoundTrip | src/extension.ts:124-129 | the dotted path built from `<s1>/.../<sk>.py` plus a symbol resolves back to `<root>/<s1>/.../<sk>.py` when that file exists |

## Left out

- The VS Code surface is not modelled: provider registration, hovers and their Markdown, messages, the clipboard and the diagnostics collection with `addDiagnostic` (src/extension.ts:7-121, 150-176). It is user-interface state, not logic.
- src/lsGoToDef.ts is not part of this model. It writes and deletes a scratch file and asks the Python language server for a location: I/O and foreign calls.
- `pythonPathToFilePath` has no external-resolver fallback, no `.pyc` rewriting and no retry, so none is modelled.
- YAML parsing (js-yaml) is not modelled: the parsed tree is an input, and None stands for a parse error.
- TargetFinder.CollectTargets: YAML aliases arrive as copied subtrees, because a finite `Node` tree cannot share or cycle. A shared anchor's targets are therefore collected once per reference, as the code's walk does. A self-referencing anchor is not modelled: on it the code recurses without end, and the resulting RangeError escapes `findHydraTargetValue`, whose `try` covers only `yaml.load` (src/yamlUtils.ts:10-15).
- FindHydraTargetValue: mapping keys are visited in order of appearance. JavaScript's `Object.keys` puts integer-like keys first, and that order is not modelled.
- TargetFinder.Lookup: with duplicate keys it takes the first entry. js-yaml rejects duplicate keys, so the case does not arise.
- File reads (`readFileSync`), the existence check (`existsSync`) and the `try`/`catch` around them are not modelled. The file text and the set of existing paths are inputs, and an unreadable file is not modelled.
- PathResolver.PythonPathToFilePath: `path.join` is modelled as joining the non-empty segments with `/` (`.` when all are empty). It does not normalise `..`, `.` or repeated separators, and platform separators are not modelled.
- The relative path (`path.relative`), the symbol name (the editor's selection or the word under the cursor) and the parameter list are inputs of `Snippet.CopyAsHydra`. The code computes the parameter list with `extractSignature(content, symbolName)` over the file's text (src/extension.ts:132-135), which `Signature.ExtractSignature` models; the file read is not modelled.
- Signature.ExtractSignature: the symbol name is matched as literal text. In the code it is put into the regular expression unescaped, so names holding regular-expression metacharacters behave differently there.
- Signature.ExtractSignature: the `m` flag has no effect on these patterns, which have no anchors, so it is not modelled.
- Strings are sequences of Unicode scalar values, not UTF-16 code units. Lengths and indices differ for characters outside the Basic Multilingual Plane.
- The docstring line reached from a sentinel 0 of `findSymbolDefinitionLine` is not distinguished from a real declaration at line 0. The code conflates the two, and the model keeps that.
