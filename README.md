# vscode-idl language server core, modelled in Dafny

This project models the core of the IDL language support for VS Code:
- the server-side symbol extraction for IDL source files (routines, variables, `TODO:` comments);
- the symbol indexes the language server keeps per document and over the workspace;
- the queries answered from them: hover, completion, outline, go-to-definition and problems;
- the file helper that strips strings and comments from lines;
- the client's outline extraction and its drive-letter path fix;
- the flattening of translation trees used when building the extension's i18n files.

Each JavaScript regular expression the core uses is modelled as a function that tells whether, and with what groups, the expression matches at a position (module `Regex`).
The `while ((m = re.exec(text)) !== null)` loops are modelled as methods with loop invariants against `ExecAll`, the list of every match such a loop visits.
Classes whose methods update their fields are Dafny classes:
- `IDLFileHelper`;
- the two symbol managers;
- `IDLProblemDetector`;
- `IDL`.

Each class method is proved against a specification function of the class's state.
The lemmas beside them state what the code promises: lookups, bookkeeping invariants, removal, ordering and idempotence.

Modules:
- `Text`, `Lsp`: strings, character classes and the language-server types (positions, ranges, symbols, diagnostics, completion items).
- `Regex`: the regular expressions and the `exec` loop.
- `RoutineExtras`: the kind and detail suffix of a routine.
- `ExtractRoutines`, `ExtractVariables`, `ExtractTodo`, `ExtractAssignments`: the parsing functions.
- `SymbolExtractor`, `DocumentSymbolExtractor`, `CursorWords`: the two extractor classes and their word resolvers.
- `FileHelper`: the comment and string stripping of `IDLFileHelper`.
- `SymbolIndex`, `SymbolQueries`, `SymbolManager`: the newer symbol manager, its index and its queries.
- `DocumentIndex`, `DocumentSymbolManager`: the older document symbol manager.
- `RoutineTable`, `RoutineHelper`: the built-in routine documentation and its completion items.
- `ProblemDetector`: duplicate routine definitions as diagnostics.
- `Idl`: the `IDL` object that ties the parts together.
- `ClientSymbols`, `CleanPath`: the client side.
- `Flatten`: the i18n build helper.

## Model

| member | source | states |
|---|---|---|
| CleanPath.CleanPath | client/src/utils/clean-path.ts:4-21 | the `exec` loop returns `Cleaned(uri)`: the path with the letter of every drive prefix upper-cased |
| CleanPath.UpperDrivesBefore | client/src/utils/clean-path.ts:9-17 | the text after the loop has handled every drive prefix before `k`: same length; letters of those prefixes upper-cased; all else kept |
| CleanPath.NextDrive | client/src/utils/clean-path.ts:1-9 | `exec` from `k` finds the next drive prefix (a letter, `:` and `\`, in any case), with none in between |
| CleanPath.ReplaceSame | client/src/utils/clean-path.ts:16 | `replace` of the first occurrence of a text by itself leaves the string unchanged, so an already upper-case drive is harmless |
| CleanPath.FirstOccurrence | client/src/utils/clean-path.ts:16 | a lower-case drive prefix is the first occurrence of its text once the earlier ones are upper case, so `replace` hits the right place |
| CleanPath.CleanedRule | client/src/utils/clean-path.ts:4-21 | the cleaned path keeps its length; every drive letter is upper case; no other character changes |
| CleanPath.NoDriveUnchanged | client/src/utils/clean-path.ts:4-21 | a path without drive prefixes comes back unchanged |
| CleanPath.CleanedIdempotent | client/src/utils/clean-path.ts:4-21 | cleaning a cleaned path changes nothing |
| Flatten.Put | make-i18n/src/build.ts:17 | `flat[k] = v` sets `k` to `v`; a new key goes last; an existing key keeps its place and every other key is unchanged |
| Flatten.Assign | make-i18n/src/build.ts:15 | `Object.assign(flat, e)` writes the entries of `e` in key order |
| Flatten.FlattenWithPath | make-i18n/src/build.ts:7-22 | the `forEach` returns `Flattened(obj, path)`: objects are recursed into under `path.key` and assigned, string leaves are written |
| Flatten.FlattenLeaves | make-i18n/src/build.ts:7-22 | flattening equals writing, in order into an empty object, the depth-first list of the leaves with their dotted keys |
| Flatten.LastWins | make-i18n/src/build.ts:15-17 | after the writes, a key is present iff some leaf has it, and it holds the value of the last such leaf |
| Flatten.PutAllRule | make-i18n/src/build.ts:15-17 | writing pairs: each key takes its last value; keys are appended in first-occurrence order |
| Flatten.EntriesMap | make-i18n/src/build.ts:15 | writing a dictionary's entries in order rebuilds its values |
| Flatten.DedupTwice | make-i18n/src/build.ts:15 | key order: adding keys already present changes nothing |
| Flatten.LeafListed | make-i18n/src/build.ts:12-18 | every string leaf reached by a non-empty key path is listed under the dotted key of that path |
| Flatten.ListedLeaf | make-i18n/src/build.ts:12-18 | every listed pair is a leaf of the tree under the dotted key of a path to it |
| Flatten.LeafAppears | make-i18n/src/build.ts:7-22 | each string leaf reached by keys k1 … kn appears in the result under `k1.….kn` |
| Flatten.OnlyLeaves | make-i18n/src/build.ts:7-22 | every key of the result holds the string of a leaf whose key path dots to that key |
| Flatten.NoLeadingDot | make-i18n/src/build.ts:15-17 | the top level has no prefix: with no key starting with `.`, no flattened key does |
| Regex.RunEnd | server/src/providers/idl-symbol-extractor.ts:85 | a greedy character-class star consumes exactly the longest run of class characters |
| Regex.DeclAt | server/src/providers/idl-symbol-extractor.ts:85 | `(?<=^\s*KW[\s]+)[a-z_][a-z_$0-9:]*` (`function`/`pro`; `KW\s` in the client) matches a non-empty name at a line start after the keyword |
| Regex.AssignAt | server/src/providers/idl-symbol-extractor.ts:220 | the variable expression matches a non-empty name followed by `\s*=` in an assignment context not continued from a `,$` line |
| Regex.AssignNextAt | server/src/parsing/extract-variables.ts:11 | the assignment expression matches with four entries: whole match, name, `=` with its spaces, right-hand side |
| Regex.AssignNextGroups | server/src/parsing/extract-variables.ts:11 | group 1 of an assignment match is the name and group 2 the white space around the `=` |
| Regex.RhsEnd | server/src/parsing/extract-variables.ts:11 | the right-hand side alternatives (`a->b` or a dotted word) match a non-empty stretch |
| Regex.OldAssignAt | server/src/providers/idl-document-symbol-extractor.ts:197 | the older variable expression matches a non-empty stretch |
| Regex.LastAssignEnd | server/src/providers/idl-document-symbol-extractor.ts:197 | the greedy `[a-z_$0-9\s]*` backtracks to the last position followed by `\b\s*=`, or fails when there is none |
| Regex.ObjNewAt | server/src/parsing/extract-variables.ts:39 | `(?<=obj_new\(\s*['"])([a-z_][a-z_0-9&]*)` matches a non-empty class name |
| Regex.TodoAt | server/src/parsing/extract-todo.ts:8 | `^( *; *)(TODO(?=:).*)$` matches with three entries: whole line, comment lead, `TODO:` text |
| Regex.RunAt | server/src/providers/idl-symbol-extractor.ts:279 | the word expressions match one non-empty run of word characters |
| Regex.DriveAt | client/src/utils/clean-path.ts:1 | `[a-z]:\\` matches a non-empty drive prefix |
| Regex.NextMatch | server/src/parsing/extract-todo.ts:10 | `exec` from `lastIndex`: the first position at or after it where the expression matches, or none |
| Regex.ExecAll | server/src/parsing/extract-todo.ts:10 | the matches an `exec` loop visits: well formed, in the text, in order and not overlapping |
| Regex.ExecAdvance | server/src/parsing/extract-todo.ts:10 | the invariant of every `exec` loop: matches visited plus matches still to come are all the matches |
| Regex.ExecDone | server/src/parsing/extract-todo.ts:10 | when `exec` finds nothing more, the loop has visited every match |
| Regex.ExecCovers | server/src/parsing/extract-todo.ts:10 | every match from the start is visited or lies inside a visited match |
| RoutineExtras.NameAdd | server/src/parsing/resolve-routine-extras.ts:4-13 | `' method'` for a name with `::`; else `' (class definition)'` when it ends in `__define` in any case; else empty |
| RoutineExtras.RoutineType | server/src/parsing/resolve-routine-extras.ts:16-25 | Method / Class / Function, case for case with `NameAdd` |
| RoutineExtras.CompletionKindOf | server/src/parsing/resolve-routine-extras.ts:28-41 | same-named completion kind for Method, Class, Function and Variable, `Text` otherwise |
| RoutineExtras.MethodWinsOverClass | server/src/parsing/resolve-routine-extras.ts:17-21 | a name such as `a::init__define` is a method, because the `::` case comes first |
| RoutineExtras.ClassSuffixExample | server/src/parsing/resolve-routine-extras.ts:8-9 | `MyClass__DEFINE` gets the class-definition suffix: the `__define` test ignores case |
| RoutineExtras.PlainNameExample | server/src/parsing/resolve-routine-extras.ts:16-25 | a name with neither `::` nor `__define`, such as `plot`, is a plain function |
| CursorWords.ScanWords | server/src/providers/idl-symbol-extractor.ts:311-331 | the word loop returns `FirstCovering` of the visited matches: the first word whose first occurrence covers the column, with that offset, or `""` |
| CursorWords.CoverGroups | server/src/providers/idl-symbol-extractor.ts:318-327 | the inner `for` loop returns the first entry of the match array that covers the column |
| CursorWords.CoveringGroupSpec | server/src/providers/idl-symbol-extractor.ts:318-327 | the entry found covers the column and no earlier entry does; none is found only when no entry covers |
| CursorWords.FirstCoveringSpec | server/src/providers/idl-symbol-extractor.ts:311-331 | the word found comes from the first match with a covering entry; `""` iff no match has one |
| CursorWords.NothingCoversZero | server/src/providers/idl-document-symbol-extractor.ts:270-276 | under the older strict test no word covers column 0 |
| CursorWords.WordGroups | server/src/providers/idl-symbol-extractor.ts:279 | a match of either word expression is one non-empty word |
| CursorWords.ScanRule | server/src/providers/idl-symbol-extractor.ts:311-331 | the word picked is the first visited word whose first occurrence covers the column, and `""` means no visited word covers it |
| ExtractTodo.ExtractToDo | server/src/parsing/extract-todo.ts:3-49 | the `exec` loop returns `Todos(text)`: one diagnostic per match of the TODO expression, in text order |
| ExtractTodo.TodoShape | server/src/parsing/extract-todo.ts:17-43 | each diagnostic has severity Information (3) and the line's text from `TODO:` to the line end as its message; its range starts after the `␠*;␠*` lead and is as long as the message |
| ExtractTodo.TodoMatchLine | server/src/parsing/extract-todo.ts:8 | a match of the TODO expression is a line made of blanks, `;`, blanks and `TODO:…`, and its groups are the lead and the message |
| ExtractTodo.TodoLineMatch | server/src/parsing/extract-todo.ts:8 | conversely, every line of that shape is matched, with those groups |
| ExtractTodo.TodoLineAt | server/src/parsing/extract-todo.ts:8 | at the start of a line of the TODO shape the expression ends its prefix group before `TODO` and its message at the end of the line |
| ExtractTodo.TodoFound | server/src/parsing/extract-todo.ts:10 | every TODO line is visited by the loop: none is skipped |
| ExtractTodo.TodoExample | server/src/parsing/extract-todo.ts:3-49 | `; TODO: something` gives one Information diagnostic `TODO: something` over (0,2)–(0,17) |
| ExtractTodo.TodoExampleMatches | server/src/parsing/extract-todo.ts:8-10 | on `; TODO: something` the loop sees one match: the whole line, `; ` and the comment text |
| ExtractRoutines.ExtractRoutines | server/src/parsing/extract-procedures.ts:5-74 | returns `Extracted(text, def, objects)`: the loop's symbols with the single-class display-name rewrite, and the updated class list |
| ExtractRoutines.CollectRoutines | server/src/parsing/extract-procedures.ts:12-59 | the `exec` loop builds one symbol per definition match and registers the classes as they appear |
| ExtractRoutines.RegisterObject | server/src/parsing/extract-procedures.ts:30-36 | a name containing `__define` adds its lower-case name, without the first `__define`, when not already listed |
| ExtractRoutines.CleanDisplayNames | server/src/parsing/extract-procedures.ts:62-70 | the `forEach` over the symbols applies the display-name rewrite for the one class |
| ExtractRoutines.ObjectsGrow | server/src/parsing/extract-procedures.ts:30-36 | the class list only grows: the caller's entries stay in front; each new entry is the class of a `__define` match; every such class is listed; no duplicates are added |
| ExtractRoutines.ObjectsPrefix | server/src/parsing/extract-procedures.ts:30-36 | the caller's class entries stay in front |
| ExtractRoutines.ObjectsFrom | server/src/parsing/extract-procedures.ts:30-36 | each added class is the class of some `__define` match |
| ExtractRoutines.ObjectsCover | server/src/parsing/extract-procedures.ts:30-36 | the class of every `__define` match is listed |
| ExtractRoutines.ObjectsDistinct | server/src/parsing/extract-procedures.ts:30-36 | a list without duplicates stays without duplicates |
| ExtractRoutines.AddObjectFacts | server/src/parsing/extract-procedures.ts:30-36 | one visit keeps the list and adds at most the class of the name, once |
| Text.LineColumnSpec | server/src/parsing/extract-procedures.ts:19-21 | the line of an offset is the number of `\n` before it, and the column is the number of characters since the last `\n` before it (since the start on the first line) |
| ExtractRoutines.RoutineSymbolShape | server/src/parsing/extract-procedures.ts:18-57 | a routine symbol is an identifier at a line start after the keyword; its range is its span on its line; detail is the label plus `NameAdd`; kind is `RoutineType`; the two ranges are equal |
| ExtractRoutines.CleanDisplayRule | server/src/parsing/extract-procedures.ts:64-68 | the rewrite changes only the display name: it is cut at its first `:` when it contains the class and a `:` |
| ExtractRoutines.DisplayNameRule | server/src/parsing/extract-procedures.ts:61-70 | the `i`-th symbol is the one built for the `i`-th match, with its display name cut at the first `:` exactly when one class is listed and the name holds it and a `:` |
| ExtractRoutines.DeclFound | server/src/parsing/extract-procedures.ts:12 | every definition in the text is visited by the loop |
| ExtractRoutines.DeclApart | server/src/parsing/extract-procedures.ts:10 | definitions never overlap: a name ends before the next definition can start |
| ExtractRoutines.RoutinePass | server/src/providers/idl-symbol-extractor.ts:80-144 | each pass (functions with `()`, procedures) yields one symbol per definition, with the pass's detail label and name suffix |
| ExtractRoutines.RoutineLabel | server/src/providers/idl-symbol-extractor.ts:115-124 | a function symbol's name ends in `()` and its detail starts with `Function`; procedures carry `Procedure` |
| ExtractVariables.ExtractVariables | server/src/parsing/extract-variables.ts:5-81 | the `exec` loop returns `Variables(text)`: one symbol per assignment match, in order |
| ExtractVariables.ForEachGroup | server/src/parsing/extract-variables.ts:29-76 | the `forEach` over a match array pushes one Variable named by group 1, at the match's column, with `next` from the rest of the line after the name and the `=` |
| ExtractVariables.NextValue | server/src/parsing/extract-variables.ts:36-42 | `next` is the trimmed rest of the line, or `Class()` when it calls `obj_new('Class'` |
| ExtractVariables.NormalizedRule | server/src/parsing/extract-variables.ts:39-42 | a text without `obj_new` is kept; otherwise the leftmost `obj_new` call gives its class name followed by `()` |
| ExtractVariables.AssignmentShape | server/src/parsing/extract-variables.ts:11 | a match is an identifier where a statement may start, then white space, one `=` and white space |
| ExtractVariables.VariableFields | server/src/parsing/extract-variables.ts:47-70 | each symbol is a `Variable` named by the identifier, with its span on its line as both ranges, and a `next` |
| ExtractVariables.NextRule | server/src/parsing/extract-variables.ts:36 | `next` comes from the match's own line; it is empty when the right-hand side starts on a later line |
| ExtractVariables.VariableFound | server/src/parsing/extract-variables.ts:13 | every assignment is visited, or lies inside an assignment visited before it |
| ExtractAssignments.ExtractAssignments | server/src/providers/idl-symbol-extractor.ts:214-262 | the `exec` loop returns `Assignments(text, pat, kind)`: the symbols of every match array entry, match by match |
| ExtractAssignments.PushGroups | server/src/providers/idl-symbol-extractor.ts:235-259 | the `forEach` pushes one symbol per entry of the match array, whatever its index |
| ExtractAssignments.AssignmentKinds | server/src/providers/idl-symbol-extractor.ts:242-256 | every symbol has detail `Variable`, the pass's kind, its name as display name, equal ranges and no `next` |
| ExtractAssignments.AssignPairs | server/src/providers/idl-symbol-extractor.ts:220-259 | the capture group doubles every assignment: two identical `Variable` symbols per match, named by the identifier left of the `=` |
| ExtractAssignments.OldAssignSingles | server/src/providers/idl-document-symbol-extractor.ts:189-240 | the older pass yields one `Constant` symbol per match, named by the whole match |
| ExtractAssignments.OldAssignShape | server/src/providers/idl-document-symbol-extractor.ts:197 | an older match starts with an identifier character; it is not `continue`, `begin` or `endif`; it ends at a word boundary followed by `\s*=` |
| SymbolExtractor.GetSelectedWord | server/src/providers/idl-symbol-extractor.ts:265-370 | returns `SelectedWordOf(line, character)`: the word under the cursor, its search name, object and method parts, and the function and `=` flags |
| SymbolExtractor.StartScan | server/src/providers/idl-symbol-extractor.ts:284-307 | the cursor adjustment, including the `lastIndex` that `test` on the global expression leaves behind |
| SymbolExtractor.ScanName | server/src/providers/idl-symbol-extractor.ts:311-332 | the scan's word is `ScannedWord`; the function flag holds iff a `(` follows the word's first occurrence |
| SymbolExtractor.EqualBeforeRule | server/src/providers/idl-symbol-extractor.ts:271-275 | `equalBefore` holds iff the line's first `=` stands left of the cursor column |
| SymbolExtractor.ScanStartRule | server/src/providers/idl-symbol-extractor.ts:284-307 | at column 0 the scan starts at 0; on a word character left of the cursor it compares with that column and starts at 1; otherwise it compares with the cursor column and starts at 0 |
| SymbolExtractor.FollowedByParenRule | server/src/providers/idl-symbol-extractor.ts:324 | `isFunction` tests the character right after the word's first occurrence for `(` |
| SymbolExtractor.MethodPartsRule | server/src/providers/idl-symbol-extractor.ts:338-359 | a word with `.` (else `->`) is a method: the object is the text before the first separator, the method the piece after it, and the search name `::method`; any other word is its own search name |
| SymbolExtractor.FirstColumnRule | server/src/providers/idl-symbol-extractor.ts:289-299 | a click in column 1 gives the trimmed first character as a plain name |
| SymbolExtractor.SelectedWordRule | server/src/providers/idl-symbol-extractor.ts:265-370 | the word is the scanned word; the `=` flag as above; `isFunction` iff a `(` follows; an empty word is no method |
| SymbolExtractor.SecondColumnExample | server/src/providers/idl-symbol-extractor.ts:302-312 | with the cursor after `ab`, the `lastIndex` left by `test` makes the scan pick `b`, not `ab` |
| SymbolExtractor.SymbolizeAsDocumentSymbols | server/src/providers/idl-symbol-extractor.ts:372-388 | procedures, then functions (sharing one class list), then variables |
| SymbolExtractor.DocumentSymbolsOrder | server/src/providers/idl-symbol-extractor.ts:372-388 | the outline holds one `Procedure…` symbol per procedure, then one `Function…` symbol named with `()` per function, then two `Variable` symbols per assignment |
| SymbolExtractor.VariablePass | server/src/providers/idl-symbol-extractor.ts:214-263 | the variable pass yields two `Variable` symbols per assignment |
| SymbolExtractor.SymbolizeAsSymbolInformation | server/src/providers/idl-symbol-extractor.ts:390-406 | each outline symbol in order, as its name, kind and its range located in `uri` |
| SymbolExtractor.ToInformation | server/src/providers/idl-symbol-extractor.ts:395-403 | the `forEach` keeps each symbol's name, kind and range |
| DocumentSymbolExtractor.SymbolizeAsDocumentSymbols | server/src/providers/idl-document-symbol-extractor.ts:320-336 | procedures, then functions (sharing one class list), then one `Constant` per assignment |
| DocumentSymbolExtractor.DocumentSymbolsOrder | server/src/providers/idl-document-symbol-extractor.ts:320-336 | the outline holds `Procedure…` symbols, then `Function…` symbols named with `()`, then one `Constant` with detail `Variable` per assignment |
| DocumentSymbolExtractor.VariablePass | server/src/providers/idl-document-symbol-extractor.ts:189-241 | one `Constant` symbol per assignment match |
| DocumentSymbolExtractor.SymbolizeAsSymbolInformation | server/src/providers/idl-document-symbol-extractor.ts:338-354 | each outline symbol in order, located in `uri` |
| DocumentSymbolExtractor.GetSelectedWord | server/src/providers/idl-document-symbol-extractor.ts:243-289 | returns `SelectedName`: the trimmed first character in column 1, else the strict scan over the identifiers from the line start |
| DocumentSymbolExtractor.ColumnZeroRule | server/src/providers/idl-document-symbol-extractor.ts:250-286 | at column 0 nothing is found |
| DocumentSymbolExtractor.ColumnOneRule | server/src/providers/idl-document-symbol-extractor.ts:255-257 | at column 1 the answer is the first character, or `""` when the line is empty or starts blank |
| DocumentSymbolExtractor.SelectedNameRule | server/src/providers/idl-document-symbol-extractor.ts:262-288 | from column 2 on, the name is the first identifier whose first occurrence strictly surrounds the column left of the cursor, or `""` |
| DocumentSymbolExtractor.SliceIndex | server/src/providers/idl-document-symbol-extractor.ts:307 | JavaScript `slice` bounds: a negative index counts from the end, and both are clamped to the string |
| DocumentSymbolExtractor.SearchSpace | server/src/providers/idl-document-symbol-extractor.ts:308 | `search(/\s/)` gives the first white-space position or -1 |
| DocumentSymbolExtractor.RunStart | server/src/providers/idl-document-symbol-extractor.ts:307 | the non-blank run ending at a position starts after a blank or at 0 |
| DocumentSymbolExtractor.ClosestWordRule | server/src/providers/idl-document-symbol-extractor.ts:292-317 | on a non-blank character the closest word is the maximal non-blank run around it |
| DocumentSymbolExtractor.LeftBound | server/src/providers/idl-document-symbol-extractor.ts:307 | `left` is where the non-blank run through the column starts |
| DocumentSymbolExtractor.RightBound | server/src/providers/idl-document-symbol-extractor.ts:308-316 | `right + pos` is the first blank after the column, or the line end when there is none |
| DocumentSymbolExtractor.ClosestWordOnBlank | server/src/providers/idl-document-symbol-extractor.ts:292-317 | on a blank character the closest word is empty |
| DocumentSymbolExtractor.ClosestWordPastEnd | server/src/providers/idl-document-symbol-extractor.ts:304-313 | past the line end it is the last non-blank run, or the last character when the line ends blank (`slice(-1)`) |
| FileHelper.TrimLine | server/src/providers/idl-file-helper.ts:36-99 | `_trimLine` returns the line up to its first `;` outside a string (the whole line when a string is left open), without trailing white space |
| FileHelper.ScanStep | server/src/providers/idl-file-helper.ts:45-89 | one pass of the loop either jumps past a closed string, staying outside strings with no comment met, or stops at the comment start |
| FileHelper.SkipQuoted | server/src/providers/idl-file-helper.ts:66-87 | from an opening quote outside strings, the scan resumes just past the closing quote still outside strings with no comment met; with no closing quote it ends at the end of the line, where no comment starts |
| FileHelper.CommentStart | server/src/providers/idl-file-helper.ts:43-90 | the comment starts at the first `;` outside strings, or at the line end when there is none |
| FileHelper.OpenString | server/src/providers/idl-file-helper.ts:70-72 | a string that is never closed hides every `;` after it |
| FileHelper.TrimLineCutsComment | server/src/providers/idl-file-helper.ts:36-99 | `a = b + c;test with comments` trims to `a = b + c` |
| FileHelper.TrimLineKeepsQuoted | server/src/providers/idl-file-helper.ts:36-99 | `';test' ; comments` trims to `';test'`: a `;` inside a string is kept |
| FileHelper.CleanedLines | server/src/providers/idl-file-helper.ts:108-114 | one cleaned line per `\n`-separated line of the file |
| FileHelper.NonEmpty | server/src/providers/idl-file-helper.ts:117-122 | the kept lines are non-empty lines of the input |
| FileHelper.LinesPreserved | server/src/providers/idl-file-helper.ts:102-129 | cleaning keeps the line count, so positions in the cleaned text are positions in the file; splitting the joined text gives the lines back |
| FileHelper.FileHelper.constructor | server/src/providers/idl-file-helper.ts:7-14 | all four caches start empty |
| FileHelper.FileHelper.GetStrings | server/src/providers/idl-file-helper.ts:17-34 | stores the document text for the file and returns it; the other caches are unchanged |
| FileHelper.FileHelper.CleanStrings | server/src/providers/idl-file-helper.ts:102-129 | the loop stores the cleaned lines, their `\n`-join and the non-empty ones for the file |
| FileHelper.FileHelper.Remove | server/src/providers/idl-file-helper.ts:131-136 | the file is forgotten in all four caches and nothing else changes |
| FileHelper.FileHelper.Refresh | server/src/providers/idl-file-helper.ts:141-145 | a cached file is left alone unless `updating`; otherwise it is read and cleaned again; the caches stay consistent |
| FileHelper.FileHelper.GetFileString | server/src/providers/idl-file-helper.ts:139-147 | returns the cached cleaned text, recomputed only when absent or `updating`, and always the join of the cached lines |
| FileHelper.FileHelper.GetFileStrings | server/src/providers/idl-file-helper.ts:150-158 | returns the cached cleaned lines, recomputed only when absent or `updating`, and always the cleaning of the stored text |
| ClientSymbols.GetDocumentSymbols | client/src/providers/idl-document-symbols.ts:31-81 | returns `ClientOutline(text)`: what the function loop pushes, then what the procedure loop pushes |
| ClientSymbols.ScanDefinitions | client/src/providers/idl-document-symbols.ts:40-57 | one `exec` loop pushes the entries of every match of its expression, in order |
| ClientSymbols.PushEntries | client/src/providers/idl-document-symbols.ts:52-56 | the `forEach` pushes one entry per element of the match array, its range `m.length` wide |
| ClientSymbols.MatchEntries | client/src/providers/idl-document-symbols.ts:46-56 | the entries of one match all sit at the match's line and column |
| ClientSymbols.ProcessDocument | client/src/providers/idl-document-symbols.ts:10-16 | no symbol information, whatever the document |
| ClientSymbols.ClientMatchShape | client/src/providers/idl-document-symbols.ts:38-60 | a match is one identifier right after exactly one white-space character following the keyword at a line start |
| ClientSymbols.PassEntry | client/src/providers/idl-document-symbols.ts:46-56 | one entry per definition: named by the identifier, with the loop's detail and `resolveType`'s kind, at its line and column, and one column wide because `m.length` is 1 |
| ClientSymbols.PassLength | client/src/providers/idl-document-symbols.ts:40-57 | one entry per definition |
| ClientSymbols.FunctionsFirst | client/src/providers/idl-document-symbols.ts:31-81 | every `Function` entry comes before every `Procedure` entry |
| SymbolIndex.Buckets.Push | server/src/providers/idl-symbol-manager.ts:494-510 | pushing onto one bucket grows that bucket by the item and leaves the other three as they are |
| SymbolIndex.Find | server/src/providers/idl-symbol-manager.ts:342 | `indexOf` gives the first position of the key, or -1 exactly when the key is absent |
| SymbolIndex.SpliceOne | server/src/providers/idl-symbol-manager.ts:345-346 | `splice(idx, 1)` removes exactly the element at `idx` |
| SymbolIndex.SpliceNothing | server/src/providers/idl-symbol-manager.ts:301-330 | `splice(idx, 0)` removes nothing, so the bucket clean-up of a removal keeps every item |
| SymbolIndex.MethodSplitRule | server/src/providers/idl-symbol-manager.ts:481-490 | a name splits on `::` into more than one piece exactly when it contains `::` |
| SymbolIndex.BucketRule | server/src/providers/idl-symbol-manager.ts:475-516 | each routine goes into one bucket, chosen by its detail (`Function` first) and by `::` in its name, or into none; functions insert the name without its last character, procedures the name with `,`, methods the part after the first `::` |
| SymbolIndex.AddEntryAligned | server/src/providers/idl-symbol-manager.ts:457-469 | a new key enters the table and both key arrays; the arrays stay parallel and list each table key once |
| SymbolIndex.AddLookupsAligned | server/src/providers/idl-symbol-manager.ts:472-519 | the item and its prepared key go onto the same bucket; the completion lookup files the item under its key |
| SymbolIndex.AddSymbolNoVariables | server/src/providers/idl-symbol-manager.ts:449 | only routines are entered, so no variable reaches the table or the routine lookups |
| SymbolIndex.AddSymbolValid | server/src/providers/idl-symbol-manager.ts:447-521 | one turn of the indexing loop keeps every invariant of the index; a variable changes nothing |
| SymbolIndex.AddSymbolsValid | server/src/providers/idl-symbol-manager.ts:447-521 | the indexing loop keeps every invariant |
| SymbolIndex.AddSymbolsConstants | server/src/providers/idl-symbol-manager.ts:447-521 | the indexing loop leaves every document's constants alone |
| SymbolIndex.IndexFoundValid | server/src/providers/idl-symbol-manager.ts:441-544 | indexing a document keeps every invariant, and its constants become exactly the items of its kept variables |
| SymbolIndex.Keys | server/src/providers/idl-symbol-manager.ts:457 | each symbol's key is its lower-cased name |
| SymbolIndex.KeptConstantsRule | server/src/providers/idl-symbol-manager.ts:524-536 | the filter keeps only variables, one per lower-cased name; every variable's name is represented, by the first variable with that name |
| SymbolIndex.ConstantItems | server/src/providers/idl-symbol-manager.ts:525-542 | one constant item per kept variable |
| SymbolIndex.ConstantItemsRule | server/src/providers/idl-symbol-manager.ts:537-542 | the constant items are Variable items without insert text, with distinct lower-cased labels, one for each variable name, labelled by the first such variable |
| SymbolIndex.WithoutUriRule | server/src/providers/idl-symbol-manager.ts:351-368 | the filter keeps exactly the entries of other documents |
| SymbolIndex.WithoutUriAppend | server/src/providers/idl-symbol-manager.ts:351-368 | the filter distributes over concatenation, so the kept entries keep their order |
| SymbolIndex.DropRule | server/src/providers/idl-symbol-manager.ts:342-348 | dropping a key from a list without repetitions removes it and keeps every other key |
| SymbolIndex.SpliceOneRule | server/src/providers/idl-symbol-manager.ts:342-348 | splicing out one element of a list without repetitions leaves every other element, once |
| SymbolIndex.ClearRoutineRule | server/src/providers/idl-symbol-manager.ts:294-336 | a removal turn drops the routine symbol of the key and, only when the key is present, the completion entry of `key + "("`; nothing else changes |
| SymbolIndex.RemoveEntriesRule | server/src/providers/idl-symbol-manager.ts:339-370 | a key with one entry leaves the table and both arrays at the same position, whichever document owns the entry; a key with several keeps the entries of other documents and stays |
| SymbolIndex.RemoveEntriesFrame | server/src/providers/idl-symbol-manager.ts:339-370 | the table step changes nothing outside the table and the key arrays |
| SymbolIndex.DropKeyAligned | server/src/providers/idl-symbol-manager.ts:342-348 | removing a key at the same position from both arrays and from the table keeps them aligned |
| SymbolIndex.RemoveEntriesAligned | server/src/providers/idl-symbol-manager.ts:339-370 | the table step keeps the key arrays aligned with the table |
| SymbolIndex.RemoveSymbolAligned | server/src/providers/idl-symbol-manager.ts:290-371 | one removal turn keeps the key arrays aligned with the table |
| SymbolIndex.RemoveSymbolOrder | server/src/providers/idl-symbol-manager.ts:290-371 | one removal turn keeps the completion key order and keeps variables out |
| SymbolIndex.RemoveSymbolValid | server/src/providers/idl-symbol-manager.ts:290-371 | one removal turn keeps every invariant |
| SymbolIndex.RemoveSymbolsFromValid | server/src/providers/idl-symbol-manager.ts:290-371 | the removal loop keeps every invariant |
| SymbolIndex.RemoveSymbolsValid | server/src/providers/idl-symbol-manager.ts:285-372 | removing a document keeps every invariant |
| SymbolIndex.RemoveSymbolsFromOthers | server/src/providers/idl-symbol-manager.ts:290-371 | removal touches only the keys of the document's symbols: every other key keeps its entries |
| SymbolIndex.RemoveSymbolsFromKeeps | server/src/providers/idl-symbol-manager.ts:290-371 | the removal loop leaves all four buckets, their search arrays and every document's constants unchanged (the bucket `splice(idx, 0)` calls delete nothing) |
| SymbolIndex.RemoveSymbolsFromValidKeys | server/src/providers/idl-symbol-manager.ts:290-371 | the removal loop keeps the key arrays aligned |
| SymbolIndex.RemoveKeepsCompletions | server/src/providers/idl-symbol-manager.ts:294-295 | the deleted key ends in `(` and no indexed key does, so removal never changes the routine completion lookup |
| SymbolQueries.PlainRouteRule | server/src/providers/idl-symbol-manager.ts:120-134 | plain routing, case by case: functions iff `=` before or a function call; every routine for an empty name; procedure methods for a method; procedures otherwise. Function methods are never offered, because the first case takes every query with `=` |
| SymbolQueries.SearchBucketRule | server/src/providers/idl-symbol-manager.ts:138-166 | optimized routing: function methods iff a method after `=`; procedure methods for another method; functions after `=` or for a call; procedures otherwise |
| SymbolQueries.RoutineValuesRule | server/src/providers/idl-symbol-manager.ts:127 | `Object.values` lists every routine item once, in insertion order of its key |
| SymbolQueries.FoundRule | server/src/providers/idl-symbol-manager.ts:170-183 | the optimized search answers each hit with the routine item under its lower-cased target; every item answers a hit, and every hit whose routine is present is answered |
| SymbolQueries.Infos | server/src/providers/idl-symbol-manager.ts:105-112 | each table entry becomes its name, kind and location |
| SymbolQueries.ByNameRule | server/src/providers/idl-symbol-manager.ts:94-115 | `findSymbolsByName` lists exactly the entries stored under the hit keys, at their document and range |
| SymbolQueries.DefinitionRule | server/src/providers/idl-symbol-manager.ts:227-282 | no name gives no location; otherwise loose mode finds a location exactly when the name search lists anything, and strict mode exactly when the first listed entry's lower-cased name has one of the four accepted shapes; the location found is always the first listed entry's, a stored entry of a hit key |
| SymbolQueries.ByNameFirst | server/src/providers/idl-symbol-manager.ts:94-115 | the name search lists nothing exactly when every hit key has no entry, and otherwise starts with the first entry of the first hit key that has one |
| SymbolQueries.DefinitionNameRule | server/src/providers/idl-symbol-manager.ts:230-242 | the searched name is lower-cased, and for a `.` (else `->`) call it is `::` plus the piece after the first separator |
| SymbolManager.IDLSymbolManager.constructor | server/src/providers/idl-symbol-manager.ts:58-91 | a fresh manager has an empty index and an empty cache |
| SymbolManager.IDLSymbolManager.IndexSymbol | server/src/providers/idl-symbol-manager.ts:447-521 | one turn of the indexing `forEach` leaves the index at `AddSymbol` |
| SymbolManager.IDLSymbolManager.EnterSymbol | server/src/providers/idl-symbol-manager.ts:451-469 | the table step: a new key goes into the table and both arrays, a known key gets the entry |
| SymbolManager.IDLSymbolManager.EnterLookups | server/src/providers/idl-symbol-manager.ts:472-519 | the lookup step: routine symbol, bucket and completion item |
| SymbolManager.IDLSymbolManager.PushCompletion | server/src/providers/idl-symbol-manager.ts:494-510 | pushes the item and its prepared key onto the same bucket, and nothing else changes |
| SymbolManager.IDLSymbolManager.IndexDocument | server/src/providers/idl-symbol-manager.ts:447-542 | the indexing body leaves the index at `IndexFound` |
| SymbolManager.IDLSymbolManager.DocumentSymbols | server/src/providers/idl-symbol-manager.ts:436-544 | a cached document gives its memoized symbols and changes nothing; otherwise its cleaned text is symbolized, indexed and cached |
| SymbolManager.IDLSymbolManager.LoadDocument | server/src/providers/idl-symbol-manager.ts:441-544 | the cache-miss path: read, symbolize, index, cache |
| SymbolManager.IDLSymbolManager.ReadText | server/src/providers/idl-symbol-manager.ts:441 | the text is the cached cleaned text, or the cleaned source when absent |
| SymbolManager.IDLSymbolManager.SpliceBucket | server/src/providers/idl-symbol-manager.ts:298-303 | a bucket clean-up with `splice(idx, 0)` leaves the index unchanged |
| SymbolManager.IDLSymbolManager.RemoveSymbolStep | server/src/providers/idl-symbol-manager.ts:290-371 | one turn of the removal `forEach` leaves the index at `RemoveSymbol` |
| SymbolManager.IDLSymbolManager.ClearRoutineStep | server/src/providers/idl-symbol-manager.ts:294-336 | the lookup part of a removal turn |
| SymbolManager.IDLSymbolManager.RemoveEntriesStep | server/src/providers/idl-symbol-manager.ts:339-370 | the table part of a removal turn |
| SymbolManager.IDLSymbolManager.RemoveSymbols | server/src/providers/idl-symbol-manager.ts:285-372 | the document's constants go, then each symbol is removed in turn |
| SymbolManager.IDLSymbolManager.Remove | server/src/providers/idl-symbol-manager.ts:375-390 | the file helper forgets the file; the index forgets the document's symbols only when they are cached; the cache entry goes |
| SymbolManager.IDLSymbolManager.Update | server/src/providers/idl-symbol-manager.ts:393-399 | remove, then index the document again from the cleaned fresh text |
| SymbolManager.IDLSymbolManager.RoutineValuesOf | server/src/providers/idl-symbol-manager.ts:127 | the routine items in key insertion order |
| SymbolManager.IDLSymbolManager.SearchRoutines | server/src/providers/idl-symbol-manager.ts:117-185 | returns `SearchRoutines` of the index: plain or optimized routing, with the matcher's hits as input |
| SymbolManager.IDLSymbolManager.Completion | server/src/providers/idl-symbol-manager.ts:186-216 | the document's constants followed by the routine search |
| SymbolManager.IDLSymbolManager.FindSymbolsByName | server/src/providers/idl-symbol-manager.ts:94-115 | the entries of the hit keys, hit by hit |
| SymbolManager.IDLSymbolManager.GetSelectedSymbol | server/src/providers/idl-symbol-manager.ts:218-224 | the selected word on the requested cleaned line, or `None` past the last line |
| SymbolManager.IDLSymbolManager.FindSymbolDefinition | server/src/providers/idl-symbol-manager.ts:227-282 | the location `Definition` gives for the selected word and the hits |
| SymbolManager.RemoveMatches | server/src/providers/idl-symbol-manager.ts:351-368 | collecting the positions of the document's entries, reversing them and splicing each out leaves exactly the entries of other documents, in order |
| SymbolManager.PositionsOf | server/src/providers/idl-symbol-manager.ts:356-360 | the collected positions are exactly those of the document's entries, in increasing order |
| SymbolManager.Spliced | server/src/providers/idl-symbol-manager.ts:363-367 | once every position is spliced out, what is left is the filtered list |
| DocumentIndex.TableOnly | server/src/providers/idl-document-symbol-manager.ts:52-54 | the older manager keeps only the table and the two key arrays; everything else is empty |
| DocumentIndex.AddEntryAt | server/src/providers/idl-document-symbol-manager.ts:240-258 | one indexing step appends the symbol's entry under its key and leaves every other key's entries alone |
| DocumentIndex.AddDocSymbolsEntries | server/src/providers/idl-document-symbol-manager.ts:240-258 | indexing a document appends under each key exactly the document's entries with that key, in order, variables included |
| DocumentIndex.AddDocSymbolsKeys | server/src/providers/idl-document-symbol-manager.ts:240-258 | after indexing, the table holds exactly the old keys and the keys of the document's symbols |
| DocumentIndex.AddDocSymbolsAligned | server/src/providers/idl-document-symbol-manager.ts:240-258 | indexing keeps the key arrays parallel and in step with the table |
| DocumentIndex.RemoveDocAligned | server/src/providers/idl-document-symbol-manager.ts:114-150 | the removal loop keeps the key arrays aligned, whether it throws or not |
| DocumentIndex.RemoveDocDistinct | server/src/providers/idl-document-symbol-manager.ts:114-150 | with distinct keys all present, removal does not throw: a one-entry key leaves the table and the key array, a key with several keeps exactly the other documents' entries, and every other key is untouched |
| DocumentIndex.SingleEntryOfOtherDocument | server/src/providers/idl-document-symbol-manager.ts:120-127 | a key with one entry is dropped whichever document owns it, so a later removal of that document throws |
| DocumentIndex.ByLineRule | server/src/providers/idl-document-symbol-manager.ts:97-110 | nothing for an empty word; otherwise a location exactly when the first listed entry's name equals the word up to case, and then that entry's location, a stored entry of a hit key |
| DocumentSymbolManager.IDLDocumentSymbolManager.constructor | server/src/providers/idl-document-symbol-manager.ts:49-61 | a fresh manager has an empty table and cache |
| DocumentSymbolManager.IDLDocumentSymbolManager.IndexSymbol | server/src/providers/idl-document-symbol-manager.ts:240-257 | one indexing turn: a known key gets the entry; a new key enters the table and both arrays |
| DocumentSymbolManager.IDLDocumentSymbolManager.IndexDocument | server/src/providers/idl-document-symbol-manager.ts:240-258 | the `forEach` leaves the index at `AddDocSymbols` |
| DocumentSymbolManager.IDLDocumentSymbolManager.DocumentSymbols | server/src/providers/idl-document-symbol-manager.ts:227-267 | a cached document gives its memoized symbols and changes nothing; otherwise its text is symbolized by the older extractor, indexed and cached |
| DocumentSymbolManager.IDLDocumentSymbolManager.RemoveSymbols | server/src/providers/idl-document-symbol-manager.ts:114-150 | the loop leaves the index at `RemoveDocSymbols` and reports whether an absent key made it throw |
| DocumentSymbolManager.IDLDocumentSymbolManager.Remove | server/src/providers/idl-document-symbol-manager.ts:153-166 | nothing unless the document is cached; then its symbols are removed and the cache entry goes unless that threw |
| DocumentSymbolManager.IDLDocumentSymbolManager.Update | server/src/providers/idl-document-symbol-manager.ts:169-175 | remove, then index again; a removal that throws rejects the update and leaves the cache |
| DocumentSymbolManager.IDLDocumentSymbolManager.SearchByName | server/src/providers/idl-document-symbol-manager.ts:64-84 | the entries of the hit keys, hit by hit |
| DocumentSymbolManager.IDLDocumentSymbolManager.SearchByLine | server/src/providers/idl-document-symbol-manager.ts:87-111 | a line past the end throws; otherwise the location `ByLine` gives for the selected word on that line |
| DocumentSymbolManager.RemovalStops | server/src/providers/idl-document-symbol-manager.ts:114-150 | once a turn throws, the remaining symbols are skipped |
| RoutineTable.Lookups.Put | server/src/providers/idl-routine-helper.ts:101-113 | entering a key into one table leaves the other three alone |
| RoutineTable.Lookups.Resolve | server/src/providers/idl-routine-helper.ts:55-70 | the `switch`: some index iff one of the tables holds the key, and then the index of the first table that does |
| RoutineTable.TaskInsertRule | server/src/providers/idl-routine-helper.ts:118-131 | `ENVI…Task` labels insert `ENVITask('…')` and `IDL…Task` labels `IDLTask('…')` with the name between, whatever the table; other labels keep their insert text |
| RoutineTable.ParsedItemRule | server/src/providers/idl-routine-helper.ts:88-131 | a rewritten entry: label `!null` for a missing one; kind Function for both routine tables, Constant for a `!` label no flag claims, Text otherwise; a non-task label inserts `label(` or `label,` as a routine, else keeps its insert text |
| RoutineTable.TablesStep | server/src/providers/idl-routine-helper.ts:97-115 | one more entry enters its lower-case label into its own table only |
| RoutineTable.TableMapHas | server/src/providers/idl-routine-helper.ts:97-115 | every entry classified into a table has its key in that table |
| RoutineTable.TableMapPoints | server/src/providers/idl-routine-helper.ts:97-115 | every key of a table points back at an entry of that table carrying that key |
| RoutineTable.TableMapLast | server/src/providers/idl-routine-helper.ts:97-115 | a key points at the last entry of its table with that key: later ones overwrite |
| RoutineTable.UniqueKeysTables | server/src/providers/idl-routine-helper.ts:97-115 | with labels distinct up to case, each entry's key is in exactly its own table and points at it |
| RoutineTable.TablesWithin | server/src/providers/idl-routine-helper.ts:97-115 | the tables hold only indices of entries already seen |
| RoutineTable.ResolveWithin | server/src/providers/idl-routine-helper.ts:55-70 | a resolved index is an index of the documentation list |
| RoutineTable.Labels | server/src/providers/idl-routine-helper.ts:93 | `routineKeys` holds one label per entry |
| RoutineTable.SearchKeys | server/src/providers/idl-routine-helper.ts:94 | `routineKeysSearch` holds one prepared label per entry |
| RoutineTable.ParsedDocs | server/src/providers/idl-routine-helper.ts:83-135 | the rewritten list has one entry per loaded entry |
| RoutineTable.FoundRule | server/src/providers/idl-routine-helper.ts:51-73 | the optimized search returns a list iff every hit's lower-case target is in some table, and then one entry per hit, in order: the entry of the first table holding it |
| RoutineTable.ParsedFound | server/src/providers/idl-routine-helper.ts:28-75 | on the tables `_parseRoutines` builds, the optimized search never returns `undefined`, and each entry carries its hit's label up to case |
| RoutineTable.ParsedResolves | server/src/providers/idl-routine-helper.ts:97-115 | on the built tables every entry's key resolves |
| RoutineTable.ParsedResolvesTo | server/src/providers/idl-routine-helper.ts:97-115 | on the built tables a resolved key leads to an entry carrying that key |
| RoutineHelper.IDLRoutineHelper.constructor | server/src/providers/idl-routine-helper.ts:28-35 | the helper holds the rewritten list, the four tables and both key arrays built from the routine list |
| RoutineHelper.IDLRoutineHelper.ParseRoutines | server/src/providers/idl-routine-helper.ts:78-138 | the `forEach` leaves the list at `ParsedDocs`, the tables at `TablesAfter` and the key arrays at `Labels` and `SearchKeys` |
| RoutineHelper.IDLRoutineHelper.Classify | server/src/providers/idl-routine-helper.ts:97-131 | one turn: the key goes into the entry's table, and the entry comes back with its label, kind and insert text |
| RoutineHelper.IDLRoutineHelper.Completion | server/src/providers/idl-routine-helper.ts:38-75 | without optimization the whole list; with it, `Found` for the hits |
| RoutineHelper.ParsedStep | server/src/providers/idl-routine-helper.ts:83-135 | one turn extends the rewritten list and both key arrays by the entry |
| ProblemDetector.IDLProblemDetector.constructor | server/src/providers/idl-problem-detector.ts:16-24 | a new detector has no problems and keeps the manager it was given |
| ProblemDetector.IDLProblemDetector.Add | server/src/providers/idl-problem-detector.ts:49-69 | one push: the document's list grows by the diagnostic, and a document without a list gets one and joins the key order |
| ProblemDetector.IDLProblemDetector.ResolveKey | server/src/providers/idl-problem-detector.ts:36-72 | the nested loops over one name record exactly the pushes of `KeyPushes`, nothing for fewer than two entries |
| ProblemDetector.IDLProblemDetector.ResolveRow | server/src/providers/idl-problem-detector.ts:40-70 | the inner loop records the two pushes of each later entry that matches entry `i`, in column order |
| ProblemDetector.IDLProblemDetector.ResolveRoutineProblems | server/src/providers/idl-problem-detector.ts:26-78 | every name of the table in key order adds its pushes to the problems |
| ProblemDetector.IDLProblemDetector.DetectAndSendProblems | server/src/providers/idl-problem-detector.ts:81-110 | the problems are recomputed from nothing (`Resolved`), stay aligned, and the sends are those of `Sends` from the old and new problems |
| ProblemDetector.IDLProblemDetector.SendProblems | server/src/providers/idl-problem-detector.ts:93-98 | each document with problems, in key order, is sent its list |
| ProblemDetector.IDLProblemDetector.SendClearedProblems | server/src/providers/idl-problem-detector.ts:102-109 | each remembered document without problems now is sent an empty list, in the remembered order |
| ProblemDetector.RecordAllAppend | server/src/providers/idl-problem-detector.ts:56-69 | recording two runs of pushes one after the other equals recording them joined |
| ProblemDetector.RecordAllAligned | server/src/providers/idl-problem-detector.ts:49-54 | pushing keeps the key order listing each document with problems exactly once |
| ProblemDetector.RecordAllRule | server/src/providers/idl-problem-detector.ts:49-69 | after pushes, a document's list is its old list followed by exactly the diagnostics pushed for it, and it has a list exactly when it had one or was pushed to |
| ProblemDetector.PairsRule | server/src/providers/idl-problem-detector.ts:38-47 | the nested loops visit pair `(i, j)` exactly when `i < j` and the entries agree on kind and detail, in row-then-column order |
| ProblemDetector.RowUpToHas | server/src/providers/idl-problem-detector.ts:40-47 | a row lists column `c` exactly when `c` is below the bound and the entries match |
| ProblemDetector.PairsBeforeHas | server/src/providers/idl-problem-detector.ts:38-47 | the first `i` rows list a pair exactly when its row is below `i` and it matches |
| ProblemDetector.PairsBeforeOrdered | server/src/providers/idl-problem-detector.ts:38-40 | the pairs come in loop order |
| ProblemDetector.PairPushesRule | server/src/providers/idl-problem-detector.ts:56-69 | two pushes per pair, the first entry's diagnostic then the second's |
| ProblemDetector.KeyPushesRule | server/src/providers/idl-problem-detector.ts:36-70 | a name with fewer than two entries reports nothing; otherwise two Errors per matching pair at the entries' documents and ranges |
| ProblemDetector.ResolvedRule | server/src/providers/idl-problem-detector.ts:84-90 | whatever the old problems, a pass gives each document exactly the diagnostics pushed for it |
| ProblemDetector.SendNewRule | server/src/providers/idl-problem-detector.ts:93-98 | one send per document with problems, carrying its list |
| ProblemDetector.SendClearedRule | server/src/providers/idl-problem-detector.ts:102-109 | the empty sends go exactly to the remembered documents that now have no list, once each |
| ProblemDetector.SendsCover | server/src/providers/idl-problem-detector.ts:93-109 | every document with problems gets its list and every cleared document an empty list |
| ProblemDetector.SendsOnly | server/src/providers/idl-problem-detector.ts:93-109 | nothing else is sent |
| ProblemDetector.SendsOnce | server/src/providers/idl-problem-detector.ts:93-109 | no document is sent to twice |
| Idl.FirstFolderFrom | server/src/providers/idl.ts:176-186 | the first folder from `i` on whose name occurs in the uri, and no earlier one; none when no folder's name occurs |
| Idl.IDL.constructor | server/src/providers/idl.ts:33-45 | the helper holds the parsed routine list and its tables, the index and the detector start empty, and no workspace folder is known |
| Idl.IDL.GetDocumentOutline | server/src/providers/idl.ts:140-151 | the outline of the document's cached symbols; a document not cached yet is extracted and indexed first, a cached one changes nothing |
| Idl.IDL.GetHoverHelp | server/src/providers/idl.ts:61-87 | empty contents for an empty word or no match, the first match's documentation when its label equals the searched name up to case, and a throw (`None`) when the helper fails |
| Idl.IDL.GetCompletionItems | server/src/providers/idl.ts:90-114 | a method query tries the optimized helper first and falls back to the whole list when it finds nothing; the index's items follow the helper's |
| Idl.IDL.DetectProblems | server/src/providers/idl.ts:130-137 | with the flag, the problems are recomputed and their sends returned; without it the call throws and nothing changes |
| Idl.IDL.AddDocumentSymbols | server/src/providers/idl.ts:171-190 | the uri is marked under the first matching folder, and the document is indexed unless already cached |
| Idl.IDL.MarkFolder | server/src/providers/idl.ts:176-186 | the marking loop leaves the folders as `Marked` gives them |
| Idl.OutlineAppend | server/src/providers/idl.ts:141-150 | the outline keeps the order of the symbols |
| Idl.OutlineHas | server/src/providers/idl.ts:141-150 | the outline lists exactly the non-variable symbols under their display names, never more entries than symbols |
| Idl.OutlineOfVariables | server/src/providers/idl.ts:142 | a document with only variables has an empty outline |
| Idl.AdditionOutline | server/src/providers/idl.spec.ts:8-33 | the outline of a procedure `addition` at line 16, characters 4 to 12, with variables beside it, is that one entry of kind 12 |
| Idl.HoverOnBuiltIns | server/src/providers/idl.ts:61-87 | over the built-in routines hover never throws, and shows documentation exactly when the first hit's label is the searched name up to case |
| Idl.CompletionOnBuiltIns | server/src/providers/idl.ts:90-114 | over the built-in routines completion never throws: a method query with hits gets one item per hit in order, otherwise the whole list, and the index's items follow |
| Idl.MarkedRule | server/src/providers/idl.ts:176-186 | the first folder the uri contains gets it marked and nothing else changes; with no such folder nothing changes; marking twice is marking once |

## Left out

- File and workspace I/O: `_getStrings` reading a document or a file, and `indexWorkspaces`/`removeWorkspaces` with `glob` and `process.chdir`. The model takes document text as a parameter (`source`, or the helper's text provider).
- Protocol plumbing: `connection.sendDiagnostics` is modelled as the returned list of `Publish` records, and `console.log` is omitted. `server.ts` is not part of this model.
- The moize promise caches and async/await: each cache is an explicit map from uri to symbols. LRU eviction (`maxSize: 1000`) and interleavings between awaits are not modelled; every operation is atomic.
- fuzzysort ranking: the matcher's hits come in as a list of positions in the prepared key array (`hits`), so scores and ranking are not modelled.
- Regular expressions: only the specific patterns the core uses are modelled, with ASCII-only case folding. A JavaScript regex engine in general is not.
- `Object.keys` order: it is taken as insertion order. Integer-like keys, which JavaScript lists first in numeric order, are not modelled. Neither are keys inherited from `Object.prototype` (for example `constructor` looked up in a plain object).
- Flatten.FlattenWithPath: leaves are strings, as in the translation files. Numbers, booleans and `null` values (the last of which `Object.keys` would throw on) are not modelled.
- `require("../../routines/idl.json")`: the routine documentation and its function and procedure flags are parameters of the routine helper.
- The older manager's `documentSymbolInformation` cache (`server/src/providers/idl-document-symbol-manager.ts:268`) is not modelled. The conversion it caches is modelled as `SymbolExtractor.ToInformation`.
- Shared objects: completion items and symbols are values. A later in-place change to an object already pushed elsewhere, such as `insertText` set after the push or `displayName` rewritten in place, is modelled as building the final value.
- Arrays rewritten in place (the routine docs list, bucket arrays) are `seq` fields reassigned by the methods, so aliasing of these arrays is not modelled.
- Throws (`TypeError` on a missing key or an undefined helper result) are modelled as `None` results or `thrown` flags, and the state at a throw is the state just before it.
- Idl.IDL.GetHoverHelp: `idl.ts` (server/src/providers/idl.ts:73) passes the whole selected-word object from `getSelectedSymbol` to `helper.completion`, whose `query` parameter is a string (server/src/providers/idl-routine-helper.ts:38-40), so the matcher is handed an object rather than a name. The model takes the matcher's hits as input, as if it were run on the word's search name; `Idl.HoverOnBuiltIns` rests on that.
- Idl.IDL.GetCompletionItems: the same selected-word object is passed as the query at server/src/providers/idl.ts:99 and 101, and the model likewise assumes the matcher is run on the word's search name; `Idl.CompletionOnBuiltIns` rests on that.
- Idl.IDL.DetectProblems: `detectProblems()` without sending is not defined on the detector in `idl-problem-detector.ts`, so the call throws and is modelled as `None`.
- Idl.IDL.constructor: `idl.ts` builds the detector with the `IDL` object, while `idl-problem-detector.ts` takes a connection, the documents and an older-style manager. The detector is built over a fresh older-style index of its own, and `manager.workspaceFiles`, absent from the shown manager, is a field of `IDL`.
- `updateDocumentSymbols`, `removeDocumentSymbols`, `getDocumentSymbolsForChange`, `updateDocumentSymbolsForChange` and `indexWorkspaces` in `idl.ts`: these are plain delegations to the manager's `update`, `remove` or `documentSymbols` and to the `sendProblems` dispatch, each of which is modelled. `findSymbolDefinition` and `findSymbolsByName` are delegations too.
- `postCompletion` and `consoleLog`: `postCompletion` returns its argument, and `consoleLog` only logs.
- Outline `children`: extracted symbols never have children, so the outline does not carry the field.
- Idl.AdditionOutline: the `addition.pro` outline is stated for a document whose symbols are that procedure and variables. The file itself is not part of this model.
- `main()` in `make-i18n/src/build.ts` writes files and is not modelled.
- The client's UI, terminal and debugger code, and the test runners, are not part of this model.
