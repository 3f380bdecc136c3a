
# desloppify Go pipeline, modelled in Dafny

This project models the text-processing core of the Go support in
desloppify. desloppify is a code-health tool: it scans a source tree for
smells, builds an import graph and measures complexity. It can also
rewrite some smells with small automatic fixers.

Everything in the model works on text that the caller passes in. This
covers lines, file contents and parsed configuration values. The files
are:

| file | module | what it models |
|---|---|---|
| `wrappers.dfy` | `Wrappers` | `Option` and `Result` |
| `text.dfy` | `Text` | ASCII character classes, `strip`, `split`/`join`, prefix and suffix tests, decimal rendering |
| `smell_scan.dfy` | `SmellScan` | the two literal scanners of the smell detector (`_match_is_in_string`, `_build_string_line_set`) |
| `smell_patterns.dfy` | `SmellPatterns` | each regular expression of the smell detector as a hand-written matcher, and the leftmost search |
| `smells.dfy` | `Smells` | the smell catalog, the empty-error-check and loop detectors, the single-line checks, the aggregation and sort of `detect_smells`, and the flattening of a report into fixer entries |
| `deps.dfy` | `Deps` | `_extract_imports`, package ids and the dependency graph of `build_dep_graph` |
| `signals.dfy` | `Signals` | the complexity signal record shared by both complexity detectors |
| `go_complexity.dfy` | `GoComplexity` | parameter count, nesting depth and long functions for Go |
| `py_complexity.dfy` | `PyComplexity` | parameter count, indentation unit, nesting depth and long functions for Python |
| `fixer_common.dfy` | `FixerCommon` | `find_balanced_end`, `collapse_blank_lines`, `find_enclosing_func`, `find_enclosing_for` |
| `fixer_apply.dfy` | `FixerApply` | `apply_fixer`: grouping by file, sorted visiting order, change detection, dry-run and the write outcome |
| `error_wrap.dfy` | `ErrorWrap` | the error-wrapping fixer |
| `error_strings.dfy` | `ErrorStrings` | the error-string fixer |
| `regex_hoist.dfy` | `RegexHoist` | the regex-hoisting fixer, as written and corrected (see Findings) |
| `string_builder.dfy` | `StringBuilder` | the string-builder fixer |
| `mutex_pointer.dfy` | `MutexPointer` | the mutex-to-pointer fixer |
| `config.dfy` | `Config` | `_merge_config` and `load_go_config` |
| `extract.dfy` | `Extract` | the AST helpers of `cmd/go-extract/extract.go` over a small Go AST datatype |
| `go_lang.dfy` | `GoLang` | `_get_go_area` and the order of `GO_ZONE_RULES` |

Each loop in the source is a `method` with a `while` or `for` loop. Its
`ensures` ties the result to a specification function. The five fixers'
`detect_*` functions share one flattening loop, `Smells.FlattenEntries`. Lemmas then prove
what the source promises about that function.

The fixers keep the source's use of line numbers. The string-builder fixer
looks each entry up at its original line number, even after its own
insertions have moved the lines below a processed loop. The model does the
same. The regex-hoisting fixer has a similar shift that defeats the purpose
its descending sort states, so it is recorded under Findings and modelled
both as written and corrected.

## Model

| member | source | states |
|---|---|---|
| SmellScan.MatchIsInString | desloppify/lang/go/detectors/smells.py:132-171 | the scanner loop returns exactly `InString(line, m)`, the literal and comment state at the match start |
| SmellScan.CodeAfterPieces | desloppify/lang/go/detectors/smells.py:136-168 | after any run of plain stretches and closed `"` or backtick literals, the `"` ones possibly holding `\x` escapes, the scan is back in code state at the run's end, whatever follows |
| SmellScan.InPiece | desloppify/lang/go/detectors/smells.py:136-168 | after such a run, a position inside the next piece is in a string exactly when that piece is a literal and the position is past its opening quote; that piece holds no backslash, because the scan jumps over the character after one |
| SmellScan.PlainPrefix | desloppify/lang/go/detectors/smells.py:137-169 | after such a run, a match inside text with no quote, backtick or `//` is not in a string, and that text leaves the scan state unchanged |
| SmellScan.CommentStartsAfterSlashes | desloppify/lang/go/detectors/smells.py:144-146 | a match starting on a `//` outside literals, after any closed literals, is not in a comment; every later position is |
| SmellScan.SlashesInLiteral | desloppify/lang/go/detectors/smells.py:144-168 | a `//` inside a literal starts no comment: plain text after the literal closes is not in a string |
| SmellScan.QuotedLiteral | desloppify/lang/go/detectors/smells.py:147-162 | after any closed literals, a position is in a `"` literal whose body holds no backslash exactly when it lies after the opening quote, up to and including the closing one |
| SmellScan.RawLiteral | desloppify/lang/go/detectors/smells.py:151-167 | after any closed literals, a position is in a backtick literal exactly when it lies after the opening backtick, up to and including the closing one |
| SmellScan.EscapedQuoteDoesNotClose | desloppify/lang/go/detectors/smells.py:155-158 | inside a `"` literal a backslash skips the next character, so `\"` does not close it |
| SmellScan.EscapeInEarlierLiteral | desloppify/lang/go/detectors/smells.py:155-162 | after a literal holding an escaped quote, `"a\"b"`, a match in the plain text that follows is not in a string |
| SmellScan.RawLiteralHasNoEscapes | desloppify/lang/go/detectors/smells.py:163-167 | a backtick literal has no escapes: a backslash before a backtick does not stop it closing |
| SmellScan.BuildStringLineSet | desloppify/lang/go/detectors/smells.py:81-129 | the line loop returns exactly `RawStringLines(lines)` |
| SmellScan.RawStringLinesMembers | desloppify/lang/go/detectors/smells.py:87-95 | a line is in the set exactly when the scan is inside an open raw string on reaching it; line 0 never is |
| SmellScan.RawSpan | desloppify/lang/go/detectors/smells.py:90-123 | after a line that opens an unclosed backtick, every line up to and including the one with the closing backtick is marked; the opening line and the line after the closing one are not |
| SmellScan.OpensRawShift | desloppify/lang/go/detectors/smells.py:97-127 | the scan of one line only looks forward: text before the scan position does not change whether the line opens a raw string |
| SmellScan.BacktickInQuotesOpensNothing | desloppify/lang/go/detectors/smells.py:101-112 | a backtick inside a `"` string opens nothing; the scan goes on after the closing quote |
| SmellScan.BacktickInCommentOpensNothing | desloppify/lang/go/detectors/smells.py:113-115 | a backtick after `//` opens nothing |
| SmellPatterns.SearchSpec | desloppify/lang/go/detectors/smells.py:329 | the search returns the leftmost position where the pattern matches, and returns nothing only when it matches nowhere |
| Smells.CatalogIndex | desloppify/lang/go/detectors/smells.py:13-75 | the catalog lists each smell exactly once, at its own position |
| Smells.Sample | desloppify/lang/go/detectors/smells.py:339-342 | a reported occurrence has the 1-based line number and content of at most 100 characters |
| Smells.SamplesMembers | desloppify/lang/go/detectors/smells.py:326-342 | line `i` is reported, as `i + 1`, exactly when the check keeps it |
| Smells.SamplesIncreasing | desloppify/lang/go/detectors/smells.py:326-342 | each line is reported at most once, in line order, with numbers in `1..n` |
| Smells.NextNonBlankSpec | desloppify/lang/go/detectors/smells.py:203-210 | the skip passes exactly the blank lines and stops at the first non-blank line or the end |
| Smells.SkipBlankLines | desloppify/lang/go/detectors/smells.py:203-205 | the skip loop returns `NextNonBlank` |
| Smells.CheckEmptyError | desloppify/lang/go/detectors/smells.py:191-215 | one pass of the line loop reports the line exactly when `EmptyCheckAt` holds |
| Smells.DetectEmptyErrorCheck | desloppify/lang/go/detectors/smells.py:177-215 | the detector returns exactly `EmptyErrorChecks(path, lines)` |
| Smells.BlockFoundSound | desloppify/lang/go/detectors/smells.py:200-215 | a reported block form has `return err` as the next non-blank line, and `}` as the non-blank line after that |
| Smells.BlockFoundComplete | desloppify/lang/go/detectors/smells.py:200-215 | every `if err != nil {` line followed, past blank lines, by `return err` and then `}` is reported |
| Smells.BlockFoundIff | desloppify/lang/go/detectors/smells.py:200-215 | the detector's block test holds exactly when such a block exists |
| Smells.EmptyCheckAtIff | desloppify/lang/go/detectors/smells.py:191-215 | a line is reported exactly for the one-line form or the block form |
| Smells.EmptyErrorChecksMembers | desloppify/lang/go/detectors/smells.py:191-215 | line `i + 1` is reported exactly when line `i` holds one of the two forms |
| Smells.EmptyErrorChecksIncreasing | desloppify/lang/go/detectors/smells.py:191-199 | each line is reported once, in line order; the `continue` keeps the one-line form from counting twice |
| Smells.CountBraces | desloppify/lang/go/detectors/smells.py:253-258 | the depth changes by the net count of braces on the line, and `found_open` becomes true exactly when the line has a `{` |
| Smells.FindLoopEnd | desloppify/lang/go/detectors/smells.py:248-263 | the `j` loop returns `LoopEnd`, the first line (outside raw strings) at which a `{` has been seen and the depth is at most 0 |
| Smells.ScanBody | desloppify/lang/go/detectors/smells.py:266-288 | the `k` loop collects exactly the findings of body lines `lo..hi-1`, skipping raw-string lines |
| Smells.ScanStep | desloppify/lang/go/detectors/smells.py:267-288 | one body line: nothing on a raw-string line, otherwise exactly the defer, concatenation and regexp findings of its stripped text |
| Smells.ScanLine | desloppify/lang/go/detectors/smells.py:269-288 | one body line is checked for `defer`, `+=` and `regexp.Compile`, each independently |
| Smells.DetectLoopSmells | desloppify/lang/go/detectors/smells.py:218-290 | the detector returns exactly `LoopSmellsFrom(path, lines, sl, 0)` |
| Smells.LoopsSkip | desloppify/lang/go/detectors/smells.py:235-241 | a raw-string line or a line that is not a `for` head adds nothing |
| Smells.LoopsAt | desloppify/lang/go/detectors/smells.py:243-290 | a loop contributes the findings of lines `loop_start+1..loop_end`, and scanning resumes at `loop_end+1` |
| Smells.LoopSmellsOrdered | desloppify/lang/go/detectors/smells.py:266-290 | each of the three lists reports lines of the scanned range in strictly increasing order, so no line is scanned as a body twice |
| Smells.SortEntriesPerm | desloppify/lang/go/detectors/smells.py:360 | the sort is a permutation of the entries |
| Smells.SortEntriesSorted | desloppify/lang/go/detectors/smells.py:360 | the sort orders by severity, then by descending count, and keeps ties in catalog order (a stable sort) |
| Smells.NoCounts | desloppify/lang/go/detectors/smells.py:298 | `smell_counts` starts with an empty list for every smell |
| Smells.CheckLine | desloppify/lang/go/detectors/smells.py:327-337 | one line is reported exactly when the pattern is found, its match starts outside literals and comments, and for `ignored_error` the stripped line starts with neither `import` nor `var` |
| Smells.ScanLines | desloppify/lang/go/detectors/smells.py:326-342 | the line loop of one check returns exactly `LineMatches` |
| Smells.CheckOne | desloppify/lang/go/detectors/smells.py:317-342 | one check over one file returns its single-line findings, and none for a check without a pattern |
| Smells.SingleLineChecks | desloppify/lang/go/detectors/smells.py:317-342 | the check loop appends to each smell's list exactly that smell's single-line findings |
| Smells.MultiLineChecks | desloppify/lang/go/detectors/smells.py:344-346 | the two multi-line detectors append exactly their findings to each list |
| Smells.ScanFile | desloppify/lang/go/detectors/smells.py:301-346 | a readable file appends exactly its findings to each smell's list |
| Text.SplitLinesJoin | desloppify/lang/go/detectors/smells.py:305-306 | the file's lines, taken from its contents by splitting at newlines, join back to the contents when they do not end with a newline |
| Smells.BuildEntries | desloppify/lang/go/detectors/smells.py:349-359 | the entry loop builds one entry per smell with matches, in catalog order |
| Smells.DetectSmells | desloppify/lang/go/detectors/smells.py:296-361 | the whole detector returns `Report(files)` and the number of files, unreadable ones included |
| Smells.SummariesSound | desloppify/lang/go/detectors/smells.py:350-359 | the entries are in catalog order, and each is built from its smell's non-empty match list |
| Smells.SummariesMembers | desloppify/lang/go/detectors/smells.py:350-359 | every entry belongs to one of the smells scanned so far and summarises its matches |
| Smells.SummariesComplete | desloppify/lang/go/detectors/smells.py:350-359 | every smell with at least one match has its entry |
| Smells.FileSetSize | desloppify/lang/go/detectors/smells.py:357 | the number of distinct files is at most the number of matches, and at least 1 when there is a match |
| Smells.AggregateFacts | desloppify/lang/go/detectors/smells.py:348-360 | the entries are exactly one per smell with matches, each built from all of them, and stably sorted |
| Smells.CountsAll | desloppify/lang/go/detectors/smells.py:298-346 | `smell_counts[id]` holds every match of `id`, file by file |
| Smells.ReportFacts | desloppify/lang/go/detectors/smells.py:296-361 | the report holds one entry for each smell found in some file, built from all its matches; it is sorted by severity and descending count, with ties in catalog order |
| Smells.SummarizeFacts | desloppify/lang/go/detectors/smells.py:353-359 | an entry records the smell's label and severity, `count` = number of matches, `files` = distinct files (between 1 and `count`), and the first 50 matches in order |
| Smells.PanicExemptFiles | desloppify/lang/go/detectors/smells.py:313-324 | `panic_in_lib` reports nothing for a file named `main.go`, a file containing `package main`, or a path ending `_test.go` |
| Smells.SingleLineSound | desloppify/lang/go/detectors/smells.py:326-337 | a single-line finding comes from a line outside raw strings, whose leftmost match starts outside literals and comments; `ignored_error` never reports an `import` or `var` line |
| Smells.Flatten | desloppify/lang/go/fixers/error_wrap.py:15-21 | every flattened entry is a sample of a kept smell, named by the fixer's naming rule |
| Smells.FlattenComplete | desloppify/lang/go/fixers/error_wrap.py:15-21 | every sample of a kept smell is handed on |
| Smells.FlattenSnoc | desloppify/lang/go/fixers/error_wrap.py:15-21 | one more entry appends exactly its samples when its smell is kept, and nothing otherwise |
| Smells.FlattenEntries | desloppify/lang/go/fixers/error_wrap.py:13-22 | the nested `for e` / `for m` loops, shared by the five fixers' `detect_*` functions, return `Flatten(entries, keep, name)` |
| Smells.AppendMatches | desloppify/lang/go/fixers/error_wrap.py:16-21 | the inner loop appends one flattened entry per match of the entry, in order |
| Deps.QuotedPath | desloppify/lang/go/detectors/deps.py:20 | a captured path is non-empty and contains no `"` |
| Deps.BlockPaths | desloppify/lang/go/detectors/deps.py:62-63 | the inner loop returns the paths of the block, in order |
| Deps.FindGroups | desloppify/lang/go/detectors/deps.py:59 | the scan returns the group-import matches left to right |
| Deps.GroupImports | desloppify/lang/go/detectors/deps.py:56-63 | the first loop returns all block paths, block by block, and the span of each block |
| Deps.StartsInGroup | desloppify/lang/go/detectors/deps.py:68 | the test holds exactly when the position lies in some span |
| Deps.FindSingles | desloppify/lang/go/detectors/deps.py:66 | the scan returns the single-import matches left to right |
| Deps.SingleImports | desloppify/lang/go/detectors/deps.py:65-70 | the second loop keeps exactly the single imports starting outside every span |
| Deps.ExtractImports | desloppify/lang/go/detectors/deps.py:48-72 | `_extract_imports` returns the block paths first, then the single imports kept |
| Deps.KeptMembers | desloppify/lang/go/detectors/deps.py:65-70 | a single-import path is kept exactly when some match carrying it starts outside every group span, so a grouped path is never added twice |
| Deps.ImportsArePaths | desloppify/lang/go/detectors/deps.py:48-72 | every extracted import is non-empty and free of quotes |
| Deps.QuotedAtPath | desloppify/lang/go/detectors/deps.py:20 | a quoted path is captured whole |
| Deps.LineAtPlain | desloppify/lang/go/detectors/deps.py:20 | an import line without an alias captures its quoted path |
| Deps.LineAtAlias | desloppify/lang/go/detectors/deps.py:12-20 | an alias (word characters, `.` or `_`) before the path is accepted and dropped |
| Deps.SingleImportAt | desloppify/lang/go/detectors/deps.py:14 | `import "path"` or `import alias "path"` at the start of the text is the first single import, with that path |
| Deps.NormalizeSpec | desloppify/lang/go/detectors/deps.py:113-114 | every separator becomes `/`, and every other character is kept |
| Deps.PkgIdRules | desloppify/lang/go/detectors/deps.py:106-114 | the package id is the module path at the scan root, `module/rel_dir` below it, and `rel_dir` when there is no module path; no separator other than `/` survives |
| Deps.GoFilesMembers | desloppify/lang/go/detectors/deps.py:75-78 | the discovered files are kept exactly when their path does not end `_test.go` |
| Deps.Locate | desloppify/lang/go/detectors/deps.py:99-118 | every file is given its package id, in discovery order |
| Deps.PkgMapMembers | desloppify/lang/go/detectors/deps.py:96-117 | the files listed for a package id are exactly the files with that id |
| Deps.AddEdge | desloppify/lang/go/detectors/deps.py:143-144 | adding one edge changes exactly its source's `imports` and its target's `importers` |
| Deps.Link | desloppify/lang/go/detectors/deps.py:142-144 | one update keeps the node set and makes every node agree with the edges plus the new one |
| Deps.LinkTargets | desloppify/lang/go/detectors/deps.py:141-144 | the target loop adds an edge to every target other than the importer |
| Deps.PackageFiles | desloppify/lang/go/detectors/deps.py:99-118 | the first loop builds `pkg_to_files` as `PkgMap` |
| Deps.TargetsAreFiles | desloppify/lang/go/detectors/deps.py:140 | every target of an import is a node of the graph |
| Deps.LinkImports | desloppify/lang/go/detectors/deps.py:138-144 | the import loop adds the edges of every import of the file |
| Deps.InitGraph | desloppify/lang/go/detectors/deps.py:121-124 | every file gets a node with no imports and no importers |
| Deps.BuildDepGraph | desloppify/lang/go/detectors/deps.py:81-146 | the builder returns `DepGraph(root, all)`, the graph before `finalize_graph` |
| Deps.LinkFiles | desloppify/lang/go/detectors/deps.py:121-144 | the nodes are the files, and each agrees with all edges |
| Deps.LinkFile | desloppify/lang/go/detectors/deps.py:127-144 | one pass of the third loop adds that file's edges; an unreadable file adds none |
| Deps.AddTargetsMembers | desloppify/lang/go/detectors/deps.py:141-144 | the edges added for a target list are those from the importer to each target other than itself |
| Deps.AddImportsMembers | desloppify/lang/go/detectors/deps.py:138-144 | the edges added for an import list are those to the files of each imported package, the importer excepted |
| Deps.AddFilesMembers | desloppify/lang/go/detectors/deps.py:127-144 | the edges of a run of files are those of each file's imports |
| Deps.EdgesMembers | desloppify/lang/go/detectors/deps.py:127-144 | `s` imports `t` exactly when `t != s` and some file `s` has an import whose package holds `t` |
| Deps.DepGraphNodes | desloppify/lang/go/detectors/deps.py:121-124 | there is a node for every non-test file, and no other |
| Deps.DepGraphSymmetric | desloppify/lang/go/detectors/deps.py:141-144 | `t` is in `s`'s imports exactly when `s` is in `t`'s importers, and both ends of an edge are nodes |
| Deps.DepGraphNoSelfEdges | desloppify/lang/go/detectors/deps.py:142 | no file imports itself or is its own importer |
| Deps.EdgeSound | desloppify/lang/go/detectors/deps.py:138-144 | an edge comes from a file importing the package id of another file |
| Deps.EdgeComplete | desloppify/lang/go/detectors/deps.py:138-144 | every import of another file's package id yields an edge |
| Deps.DepGraphEdges | desloppify/lang/go/detectors/deps.py:127-144 | `t` is in `s`'s imports exactly when `t != s` and `s` imports `t`'s package; unresolved imports add nothing |
| Deps.ImportEdgeCount | desloppify/lang/go/detectors/deps.py:140-144 | importing a package with K files other than the importer adds exactly K edges |
| Signals.MaxOfSpec | desloppify/lang/go/detectors/complexity.py:11-34 | the running maximum is at least every count, and is 0 or one of them |
| Signals.Keep | desloppify/lang/go/detectors/complexity.py:106-107 | only functions over 80 lines are kept |
| Signals.LongestSpec | desloppify/lang/go/detectors/complexity.py:111 | `max` returns a longest function, the first one of that length |
| Signals.KeepMembers | desloppify/lang/go/detectors/complexity.py:82-107 | `results` holds exactly the measured functions over 80 lines |
| Signals.KeepLongest | desloppify/lang/go/detectors/complexity.py:110-113 | something is reported exactly when some function is over 80 lines, and then no measured function is longer |
| GoComplexity.MaxParamsSignalSpec | desloppify/lang/go/detectors/complexity.py:8-37 | a signal is reported exactly when some header has more than 5 parameters; its value is the largest count |
| GoComplexity.ParamsStartComplete | desloppify/lang/go/detectors/complexity.py:10-16 | a header `func`, spaces, an optional receiver `(…)` with no `)` inside followed by spaces, a word, optional spaces and `(` matches, and the parameter scan starts just past that `(` |
| GoComplexity.ParamsStartSound | desloppify/lang/go/detectors/complexity.py:10-16 | every header that matches has exactly that shape, and the scan starts just past the `(` after the name |
| GoComplexity.ParamTextBalanced | desloppify/lang/go/detectors/complexity.py:13-26 | the depth loop stops at the `)` balancing the list's `(`: the parentheses inside balance and never close more than they open |
| GoComplexity.CloseParenSpec | desloppify/lang/go/detectors/complexity.py:14-23 | when the depth reaches 0 the loop stands just past a `)`, and the depth never fell below 1 before it |
| GoComplexity.ComputeMaxParams | desloppify/lang/go/detectors/complexity.py:8-37 | the header loop returns `MaxParamsSignal(content)` |
| GoComplexity.CountParams | desloppify/lang/go/detectors/complexity.py:14-34 | one header contributes its comma-separated non-blank pieces; nothing when its list never closes or is blank |
| GoComplexity.NestScanAppend | desloppify/lang/go/detectors/complexity.py:47-71 | the character scan of a concatenation is the scan of the second part from the state after the first |
| GoComplexity.NestLinesStream | desloppify/lang/go/detectors/complexity.py:47-51 | line boundaries do not matter: the literal state carries from line to line |
| GoComplexity.NestMax | desloppify/lang/go/detectors/complexity.py:66-69 | `max_depth` bounds every depth reached and, unless unchanged, is reached after some prefix |
| GoComplexity.NestInsideQuotes | desloppify/lang/go/detectors/complexity.py:56-61 | inside a `"` literal, text without a quote changes nothing |
| GoComplexity.NestQuoted | desloppify/lang/go/detectors/complexity.py:56-63 | braces inside a closed `"` literal do not count |
| GoComplexity.NestEscapeApproximation | desloppify/lang/go/detectors/complexity.py:57-61 | a backslash does not protect the quote after it: `"\"` is a complete literal |
| GoComplexity.NestingSignalSpec | desloppify/lang/go/detectors/complexity.py:40-76 | a signal is reported exactly when the scanned text reaches brace depth 6 or more, that is `max_depth - 1 > 4` |
| GoComplexity.ComputeNestingDepth | desloppify/lang/go/detectors/complexity.py:40-76 | the line loop returns `NestingSignal(lines)` |
| GoComplexity.LongSignalSpec | desloppify/lang/go/detectors/complexity.py:79-113 | a long function is reported exactly when some function is over 80 lines, and then none is longer |
| GoComplexity.FuncBodyBalanced | desloppify/lang/go/detectors/complexity.py:92-100 | the brace loop ends at the `}` balancing the first `{`; in between the depth stays at 1 or more |
| GoComplexity.BraceCloseSpec | desloppify/lang/go/detectors/complexity.py:95-100 | from depth at least 1, the loop stops at the first `}` that brings the depth to 0 |
| GoComplexity.MeasureLoc | desloppify/lang/go/detectors/complexity.py:85-102 | a measured function spans at least its own line |
| GoComplexity.ComputeLongFunctions | desloppify/lang/go/detectors/complexity.py:79-113 | the header loop returns `LongSignal(content)` |
| GoComplexity.MeasureFunction | desloppify/lang/go/detectors/complexity.py:85-108 | one header is measured from its `func` line to the balancing `}`; nothing when no `{` follows it |
| PyComplexity.RealPartition | desloppify/lang/python/detectors/complexity.py:14-16 | the real parameters are the non-blank pieces less `self`, `cls` and `*`-prefixed ones |
| PyComplexity.MaxParamsSignalSpec | desloppify/lang/python/detectors/complexity.py:9-21 | a signal is reported exactly when some header has more than 7 real parameters; its value is the largest count |
| PyComplexity.ComputeMaxParams | desloppify/lang/python/detectors/complexity.py:9-21 | the header loop returns `MaxParamsSignal(content)` |
| PyComplexity.GcdDivides | desloppify/lang/python/detectors/complexity.py:36-38 | the gcd is positive and divides both arguments |
| PyComplexity.GcdGreatest | desloppify/lang/python/detectors/complexity.py:36-38 | every common divisor divides the gcd |
| PyComplexity.IndentsMembers | desloppify/lang/python/detectors/complexity.py:27-33 | the set holds exactly the indents, each in `1..16`, of the non-blank lines that do not start with `#` |
| PyComplexity.GcdAllDivisors | desloppify/lang/python/detectors/complexity.py:36-38 | the folded gcd has exactly the common divisors of the indents |
| PyComplexity.IndentUnitSpec | desloppify/lang/python/detectors/complexity.py:24-39 | the unit is 4 when no line is indented by 1 to 16 columns; otherwise it is the gcd of those indents: at least 1, dividing each, and divisible by every common divisor |
| PyComplexity.DetectIndentUnit | desloppify/lang/python/detectors/complexity.py:24-39 | the two loops return `IndentUnit(lines)` |
| PyComplexity.NestingSignalSpec | desloppify/lang/python/detectors/complexity.py:42-56 | a signal is reported exactly when some code line is indented more than 4 units; its value is the deepest depth |
| PyComplexity.ComputeNestingDepth | desloppify/lang/python/detectors/complexity.py:42-56 | the line loop returns `NestingSignal(lines)` |
| PyComplexity.FnEndSpec | desloppify/lang/python/detectors/complexity.py:75-83 | a body runs over blank lines and lines indented deeper than the `def`, and stops at the first line that is neither |
| PyComplexity.DefsSkip | desloppify/lang/python/detectors/complexity.py:66-69 | a line that is not a `def` adds nothing |
| PyComplexity.DefsAt | desloppify/lang/python/detectors/complexity.py:70-88 | a `def` line adds its span `fn_start..j`, and scanning resumes at `j` |
| PyComplexity.DefsOrdered | desloppify/lang/python/detectors/complexity.py:88 | the measured spans do not overlap |
| PyComplexity.DefsCover | desloppify/lang/python/detectors/complexity.py:64-88 | every `def` line lies in some measured span, so a nested `def` is never measured on its own |
| PyComplexity.LongSignalSpec | desloppify/lang/python/detectors/complexity.py:59-93 | a long function is reported exactly when some measured span is over 80 lines, and then none is longer |
| PyComplexity.SpanSignalSpec | desloppify/lang/python/detectors/complexity.py:85-93 | the report for a list of spans is the longest, and only when one is over 80 lines |
| PyComplexity.ComputeLongFunctions | desloppify/lang/python/detectors/complexity.py:59-93 | the nested loops return `LongSignal(lines)` |
| PyComplexity.FunctionEnd | desloppify/lang/python/detectors/complexity.py:75-83 | the inner loop returns `FnEnd` |
| FixerCommon.BalancedFrom | desloppify/lang/go/fixers/common.py:26-41 | a closing line found by the scan lies in the scanned window |
| FixerCommon.BalancedEnd | desloppify/lang/go/fixers/common.py:12-42 | the line returned is at or after `start`, within `max_lines` lines of it and inside the file |
| FixerCommon.InQuote | desloppify/lang/go/fixers/common.py:31-36 | inside a quote the scan passes over every character until a quote of the same kind that is not escaped |
| FixerCommon.QuotedSkipped | desloppify/lang/go/fixers/common.py:31-40 | a quoted segment is skipped whole: brackets inside a string or rune literal do not move the depths |
| FixerCommon.FindBalancedEnd | desloppify/lang/go/fixers/common.py:12-42 | the line and character loops return `BalancedEnd` |
| FixerCommon.CollapsedNoDoubleBlank | desloppify/lang/go/fixers/common.py:88-100 | the result never holds two blank lines in a row |
| FixerCommon.CollapsedNonBlank | desloppify/lang/go/fixers/common.py:88-100 | the non-blank lines of the result are exactly the non-blank lines that were not removed, in order |
| FixerCommon.CollapsedKept | desloppify/lang/go/fixers/common.py:92-98 | every line of the result is a line that was not removed |
| FixerCommon.CollapseBlank | desloppify/lang/go/fixers/common.py:88-100 | the loop with its `prev_blank` flag returns `CollapseBlankLines` |
| FixerCommon.EnclosingFuncSpec | desloppify/lang/go/fixers/common.py:103-119 | the result is the name of the nearest `func` header at or above the line, and nothing exactly when there is no header up to it |
| FixerCommon.EnclosingFuncSame | desloppify/lang/go/fixers/common.py:115-119 | the search depends only on the headers at or above the line |
| FixerCommon.FindEnclosingFunc | desloppify/lang/go/fixers/common.py:106-119 | the backward loop returns `EnclosingFunc` |
| FixerCommon.EnclosingForFound | desloppify/lang/go/fixers/common.py:122-144 | the loop found is a `for` line whose backward brace balance to the line is -1, and no line in between has a negative balance or is such a loop |
| FixerCommon.EnclosingForNone | desloppify/lang/go/fixers/common.py:131-144 | when nothing is found, every `for` line above with balance -1 is cut off by a nearer line of negative balance |
| FixerCommon.EnclosingForAbove | desloppify/lang/go/fixers/common.py:125-141 | the index returned is at or above the line and is a `for` line |
| FixerCommon.FindEnclosingFor | desloppify/lang/go/fixers/common.py:125-144 | the backward loop, with its reversed character loop, returns `EnclosingFor` |
| FixerApply.SplitKeepJoin | desloppify/lang/go/fixers/common.py:62-65 | joining the lines split with their ends kept gives the text back, so an identity transform leaves the text unchanged |
| FixerApply.GroupSpec | desloppify/lang/go/fixers/common.py:53-55 | a file's group holds exactly the entries naming it, and is empty exactly for files no entry names |
| FixerApply.Groups | desloppify/lang/go/fixers/common.py:53-55 | the grouped files are exactly the files the entries name |
| FixerApply.GroupByFile | desloppify/lang/go/fixers/common.py:53-55 | the grouping loop returns `Groups(entries)` |
| FixerApply.StrLtAsym | desloppify/lang/go/fixers/common.py:58 | string order is asymmetric |
| FixerApply.StrLtTotal | desloppify/lang/go/fixers/common.py:58 | string order is total |
| FixerApply.StrLtTrans | desloppify/lang/go/fixers/common.py:58 | string order is transitive |
| FixerApply.SortedPathsMembers | desloppify/lang/go/fixers/common.py:58 | the files are visited exactly once each: the sorted paths are the grouped paths |
| FixerApply.SortedPathsOrdered | desloppify/lang/go/fixers/common.py:58 | the files are visited in strictly increasing path order |
| FixerApply.UnchangedNoResult | desloppify/lang/go/fixers/common.py:64-67 | a transform that returns the lines it was given records no result and writes nothing |
| FixerApply.DryRunWritesNothing | desloppify/lang/go/fixers/common.py:74-81 | a dry run leaves every file as it was |
| FixerApply.FixOneFile | desloppify/lang/go/fixers/common.py:59-83 | one file: the result is recorded exactly when the content changed, and the file is replaced only when it changed, this is not a dry run and the write succeeds |
| FixerApply.VisitFiles | desloppify/lang/go/fixers/common.py:58-83 | the loop over the sorted files returns `Results` and `Written` over the sorted paths |
| FixerApply.ApplyFixer | desloppify/lang/go/fixers/common.py:45-85 | the fixer's results and the files afterwards are those of visiting the grouped files in path order |
| FixerApply.ChangedIdsMembers | desloppify/lang/go/fixers/error_strings.py:35-56 | an id `tag::n` is reported exactly when line `n` changed |
| FixerApply.ChangedIdsNone | desloppify/lang/go/fixers/error_strings.py:35-56 | a pass that changes no line reports nothing |
| FixerApply.LineNums | desloppify/lang/go/fixers/regex_hoist.py:34 | the numbers taken from the entries are their lines, one per entry, in entry order |
| FixerApply.InsertByPerm | desloppify/lang/go/fixers/regex_hoist.py:34 | inserting into the sorted list adds exactly that number |
| FixerApply.SortBySpec | desloppify/lang/go/fixers/string_builder.py:34 | the sort by line (descending for the regex fixer) is a permutation of the numbers, in order |
| FixerApply.Rewritten | desloppify/lang/go/fixers/error_strings.py:35 | a line-by-line rewrite inserts and removes no line |
| FixerApply.RewriteStep | desloppify/lang/go/fixers/error_strings.py:35-56 | one step of the line loop: the lines up to `i` hold their final text, the rest are untouched, and the ids reported are those of the changed lines so far |
| FixerApply.RewrittenIdempotent | desloppify/lang/go/fixers/error_strings.py:35-58 | when no rewritten line can be rewritten again, a second pass changes nothing |
| ErrorWrap.DetectBareErrors | desloppify/lang/go/fixers/error_wrap.py:9-22 | every entry is a sample of `bare_error_return` or `empty_error_check`, named `<smell>::<line>` |
| ErrorWrap.DetectBareErrorsComplete | desloppify/lang/go/fixers/error_wrap.py:14-21 | every sample of the two smells becomes an entry |
| ErrorWrap.CheckTextFinal | desloppify/lang/go/fixers/error_wrap.py:26-48 | a rewritten one-line check matches neither pattern |
| ErrorWrap.ReturnTextFinal | desloppify/lang/go/fixers/error_wrap.py:25-56 | a rewritten bare return matches neither pattern |
| ErrorWrap.RewriteFinal | desloppify/lang/go/fixers/error_wrap.py:44-58 | a rewritten line keeps its indent and matches neither pattern again, whatever function name a later pass uses |
| ErrorWrap.RewriteNotHeader | desloppify/lang/go/fixers/error_wrap.py:41-58 | neither a matching line nor its rewrite is a `func` header, so rewriting cannot change the name found for a later line |
| ErrorWrap.Wrapped | desloppify/lang/go/fixers/error_wrap.py:36-58 | no line is inserted or removed |
| ErrorWrap.WrappedKeeps | desloppify/lang/go/fixers/error_wrap.py:38-58 | an unflagged line, or one matching neither pattern, is kept as it is |
| ErrorWrap.TransformIdempotent | desloppify/lang/go/fixers/error_wrap.py:32-60 | running the transform on its own output changes nothing and reports nothing |
| ErrorWrap.WrapStep | desloppify/lang/go/fixers/error_wrap.py:36-58 | one step of the line loop: lines up to `i` hold their final text, the later lines are untouched, the `func` headers are those of the input, and the ids so far are those of the changed lines |
| ErrorWrap.WrapLine | desloppify/lang/go/fixers/error_wrap.py:44-58 | the one-line check is tried before the bare return; the line changes exactly when one of them matches |
| ErrorWrap.WrapErrors | desloppify/lang/go/fixers/error_wrap.py:32-60 | the loop returns `Transform`, the rewritten lines and one `error-wrap::<n>` per changed line |
| ErrorWrap.FixErrorWrap | desloppify/lang/go/fixers/error_wrap.py:30-62 | the shared file loop with this transform |
| ErrorStrings.DetectErrorStrings | desloppify/lang/go/fixers/error_strings.py:9-22 | every entry is a sample of `error_string_format`, named `error_string::<line>` |
| ErrorStrings.DetectErrorStringsComplete | desloppify/lang/go/fixers/error_strings.py:14-21 | every sample of the smell becomes an entry |
| ErrorStrings.LiteralEnd | desloppify/lang/go/fixers/error_strings.py:25-26 | the end of group 3 is after the start and just past a closing quote |
| ErrorStrings.SearchFrom | desloppify/lang/go/fixers/error_strings.py:25-39 | a match found starts at or after the search position and matches there |
| ErrorStrings.SearchFromLeftmost | desloppify/lang/go/fixers/error_strings.py:39 | no match starts before the one found |
| ErrorStrings.Search | desloppify/lang/go/fixers/error_strings.py:25-45 | a match has the capital letter after its start and ends on the closing quote |
| ErrorStrings.SpliceKeeps | desloppify/lang/go/fixers/error_strings.py:43-55 | the splice keeps everything before the letter and after the match, and lower-cases the letter |
| ErrorStrings.FixLineKeeps | desloppify/lang/go/fixers/error_strings.py:39-55 | the rewrite keeps everything before the capital letter and after the literal, and lower-cases the letter |
| ErrorStrings.FixLineLength | desloppify/lang/go/fixers/error_strings.py:50-52 | one period is dropped exactly when the literal ends in `."` |
| ErrorStrings.FixLineFinal | desloppify/lang/go/fixers/error_strings.py:39-55 | the literal just rewritten no longer matches at its start |
| ErrorStrings.FixLineChanges | desloppify/lang/go/fixers/error_strings.py:39-56 | a rewrite always changes the line, so each reported id is a changed line |
| ErrorStrings.LowerLiteral | desloppify/lang/go/fixers/error_strings.py:43-55 | the step-by-step splice returns `Splice` |
| ErrorStrings.LowerErrorStrings | desloppify/lang/go/fixers/error_strings.py:31-58 | the loop returns `Transform`, the rewritten lines and one `error-string::<n>` per changed line |
| ErrorStrings.TransformKeeps | desloppify/lang/go/fixers/error_strings.py:35-41 | an unflagged line, or a flagged one without a capital error literal, is kept |
| ErrorStrings.TransformRewrites | desloppify/lang/go/fixers/error_strings.py:39-55 | a flagged line with a capital error literal is replaced by its splice, which differs from it |
| ErrorStrings.FixErrorStrings | desloppify/lang/go/fixers/error_strings.py:29-60 | the shared file loop with this transform |
| MutexPointer.DetectMutexCopy | desloppify/lang/go/fixers/mutex_pointer.py:9-22 | every entry is a sample of `mutex_copy`, named `mutex_copy::<line>` |
| MutexPointer.DetectMutexCopyComplete | desloppify/lang/go/fixers/mutex_pointer.py:14-21 | every sample of the smell becomes an entry |
| MutexPointer.SubNoMatch | desloppify/lang/go/fixers/mutex_pointer.py:25-42 | without a match the substitution copies the text |
| MutexPointer.SubMatch | desloppify/lang/go/fixers/mutex_pointer.py:25-42 | with a match the output mentions `*sync.Mutex` |
| MutexPointer.FixMutexIff | desloppify/lang/go/fixers/mutex_pointer.py:39-45 | a flagged line is rewritten exactly when it does not mention `*sync.Mutex` and the pattern matches, and the rewrite mentions it |
| MutexPointer.FixMutexFinal | desloppify/lang/go/fixers/mutex_pointer.py:39-40 | a rewritten line is skipped by a second pass |
| MutexPointer.PointerMutexes | desloppify/lang/go/fixers/mutex_pointer.py:30-47 | the loop returns `Transform`, the rewritten lines and one `mutex-pointer::<n>` per changed line |
| MutexPointer.TransformIdempotent | desloppify/lang/go/fixers/mutex_pointer.py:30-47 | a second run changes nothing and reports nothing |
| MutexPointer.FixMutexPointer | desloppify/lang/go/fixers/mutex_pointer.py:28-49 | the shared file loop with this transform |
| RegexHoist.DetectRegexInLoop | desloppify/lang/go/fixers/regex_hoist.py:9-22 | every entry is a sample of `regex_in_loop`, named `regex_in_loop::<line>` |
| RegexHoist.DetectRegexInLoopComplete | desloppify/lang/go/fixers/regex_hoist.py:14-21 | every sample of the smell becomes an entry |
| RegexHoist.AssignMatch | desloppify/lang/go/fixers/regex_hoist.py:25-47 | a match has a non-empty variable name starting after the indent and a non-empty call |
| RegexHoist.AssignMatchComplete | desloppify/lang/go/fixers/regex_hoist.py:25-47 | a line made of an indent, a word, optional spaces, `=` or `:=`, spaces, `regexp.MustCompile` or `regexp.Compile`, spaces, `(`, text with no newline, `)` and trailing spaces matches, capturing the word as the variable, the call from `regexp.` through the last `)` as the call, and the indent |
| RegexHoist.AssignMatchSound | desloppify/lang/go/fixers/regex_hoist.py:25-47 | every line that matches has exactly that shape, and the captures are the parts the shape names |
| RegexHoist.HoistOneShape | desloppify/lang/go/fixers/regex_hoist.py:37-62 | one hoist: the loop is above the line; lines above the loop stay, the assignment takes the loop's index with the loop's indent, every other line moves down one and the flagged line is left empty |
| RegexHoist.HoistOneEmpties | desloppify/lang/go/fixers/regex_hoist.py:58-62 | one hoist adds exactly one empty line |
| RegexHoist.DropEmptySpec | desloppify/lang/go/fixers/regex_hoist.py:67 | dropping removes exactly the empty lines and keeps every other one |
| RegexHoist.HoistedCounts | desloppify/lang/go/fixers/regex_hoist.py:36-64 | each hoist adds one line and one empty line, and one id |
| RegexHoist.TransformLineCount | desloppify/lang/go/fixers/regex_hoist.py:31-68 | the output has as many lines as the input less its empty lines |
| RegexHoist.TransformNoEmpty | desloppify/lang/go/fixers/regex_hoist.py:67 | the output holds no empty line |
| RegexHoist.HoistedIds | desloppify/lang/go/fixers/regex_hoist.py:36-64 | each id names a line number of the order, and there are no more ids than entries |
| RegexHoist.TransformIds | desloppify/lang/go/fixers/regex_hoist.py:31-68 | each id names the line of one of the file's entries, and there are no more ids than entries |
| RegexHoist.HoistedNone | desloppify/lang/go/fixers/regex_hoist.py:36-64 | when no entry can be hoisted the lines are unchanged and nothing is reported |
| RegexHoist.ShiftSkipsEntry | desloppify/lang/go/fixers/regex_hoist.py:33-64 | as written: with two assignments in one loop, hoisting the lower one first shifts the upper one, which then is not hoisted and not reported although it qualifies |
| RegexHoist.HoistRegexes | desloppify/lang/go/fixers/regex_hoist.py:31-68 | the sort, the entry loop and the cleanup return `Transform` |
| RegexHoist.HoistEntry | desloppify/lang/go/fixers/regex_hoist.py:36-64 | one pass of the entry loop: the line is emptied and the assignment inserted above its loop exactly when `HoistOne` applies, and then its id is recorded; otherwise nothing changes |
| RegexHoist.FixRegexHoist | desloppify/lang/go/fixers/regex_hoist.py:29-70 | the shared file loop with this transform |
| RegexHoist.CorrectedLayout | desloppify/lang/go/fixers/regex_hoist.py:33-64 | with every flagged line located on the file as read, every planned assignment appears above its loop with the loop's indent, and every other line is kept |
| RegexHoist.CorrectedTransformLines | desloppify/lang/go/fixers/regex_hoist.py:31-68 | the corrected output holds every planned hoist and every non-empty unplanned line, and no empty line |
| RegexHoist.PlannedIdsMembers | desloppify/lang/go/fixers/regex_hoist.py:64 | an id is reported exactly for each qualifying line number in the order |
| RegexHoist.CorrectedTransformIds | desloppify/lang/go/fixers/regex_hoist.py:31-68 | the corrected ids are exactly those of the entries whose line qualifies on the file as read |
| RegexHoist.FixRegexHoistCorrected | desloppify/lang/go/fixers/regex_hoist.py:29-70 | the shared file loop with the corrected transform |
| StringBuilder.DetectStringConcat | desloppify/lang/go/fixers/string_builder.py:9-22 | every entry is a sample of `string_concat_loop`, named `string_concat::<line>` |
| StringBuilder.DetectStringConcatComplete | desloppify/lang/go/fixers/string_builder.py:14-21 | every sample of the smell becomes an entry |
| StringBuilder.ConcatMatch | desloppify/lang/go/fixers/string_builder.py:25-47 | a match has a non-empty variable name |
| StringBuilder.ConcatMatchComplete | desloppify/lang/go/fixers/string_builder.py:25-47 | a line made of an indent, a word, optional spaces, `+=`, spaces and a non-empty rest with no newline (one trailing newline allowed) matches, capturing the word as the variable, the stripped rest as the expression, and the indent |
| StringBuilder.ConcatMatchSound | desloppify/lang/go/fixers/string_builder.py:25-47 | every line that matches has exactly that shape, and the captures are the parts the shape names |
| StringBuilder.DottedShape | desloppify/lang/go/fixers/string_builder.py:25 | a line whose word after the indent is followed by `.` is no concatenation |
| StringBuilder.WriteLineFinal | desloppify/lang/go/fixers/string_builder.py:25-54 | the rewritten line keeps the indent and is no longer a concatenation |
| StringBuilder.LoopEndFrom | desloppify/lang/go/fixers/string_builder.py:70-79 | a line found by the scan lies at or after where it started |
| StringBuilder.LoopEnd | desloppify/lang/go/fixers/string_builder.py:69-79 | the loop end is at or after the line after the loop and inside the file |
| StringBuilder.LoopEndFromSpec | desloppify/lang/go/fixers/string_builder.py:67-79 | the scan stops at the first line where a brace has opened and the depth is back at or below 0, and finds nothing when no line does so |
| StringBuilder.LoopEndSpec | desloppify/lang/go/fixers/string_builder.py:66-79 | the loop end is the first line that closes the loop, or the loop line itself when none does |
| StringBuilder.WithDecl | desloppify/lang/go/fixers/string_builder.py:62 | the declaration adds one line |
| StringBuilder.AddBuilder | desloppify/lang/go/fixers/string_builder.py:57-83 | a new loop adds two lines |
| StringBuilder.AddBuilderShape | desloppify/lang/go/fixers/string_builder.py:57-83 | the declaration sits right above the loop line with the loop's indent, and the assignment right after the line the scan stopped at; every other line keeps its order |
| StringBuilder.StepCounts | desloppify/lang/go/fixers/string_builder.py:37-83 | a line in a loop already processed is rewritten in place; a new loop adds two lines and is remembered, and at most one id is added |
| StringBuilder.BuiltCounts | desloppify/lang/go/fixers/string_builder.py:36-83 | the output has two more lines per builder and none otherwise, with at most one builder per id |
| StringBuilder.TransformLineCount | desloppify/lang/go/fixers/string_builder.py:30-85 | the output grows by an even number of lines, at most two per id, with at most one id per entry |
| StringBuilder.BuiltIds | desloppify/lang/go/fixers/string_builder.py:36-55 | each id names a line number of the order |
| StringBuilder.TransformIds | desloppify/lang/go/fixers/string_builder.py:30-85 | each id names the line of one of the file's entries |
| StringBuilder.StepFound | desloppify/lang/go/fixers/string_builder.py:41-83 | a flagged concatenation in a loop is rewritten and reported; a new loop also gets its builder |
| StringBuilder.StepIds | desloppify/lang/go/fixers/string_builder.py:36-55 | one step adds at most its own id |
| StringBuilder.StepInPlace | desloppify/lang/go/fixers/string_builder.py:54-57 | in a loop already processed only the flagged line changes |
| StringBuilder.FindLoopEnd | desloppify/lang/go/fixers/string_builder.py:67-79 | the brace loop returns `LoopEnd` |
| StringBuilder.InsertBuilder | desloppify/lang/go/fixers/string_builder.py:57-83 | the two insertions return `AddBuilder` |
| StringBuilder.ApplyEntry | desloppify/lang/go/fixers/string_builder.py:37-83 | the loop body returns `Step` |
| StringBuilder.BuildStrings | desloppify/lang/go/fixers/string_builder.py:30-85 | the entry loop returns `Transform` |
| StringBuilder.FixStringBuilder | desloppify/lang/go/fixers/string_builder.py:28-87 | the shared file loop with this transform |
| Extract.ReceiverTypeNameSpec | cmd/go-extract/extract.go:139-151 | the receiver name is the identifier under pointers and type arguments, and empty for any other expression |
| Extract.StarMarks | cmd/go-extract/extract.go:225 | the pointer marks are exactly `k` stars |
| Extract.ReceiverInTypeString | cmd/go-extract/extract.go:220-238 | for a receiver form the rendered type is its stars, then the receiver name, then its type arguments in brackets, so the name a method is attached to is the one the type string shows |
| Extract.TypeStringBalanced | cmd/go-extract/extract.go:220-238 | square brackets in a rendered type come in pairs |
| Extract.NamesMembers | cmd/go-extract/extract.go:124-127 | a name is listed exactly when some field declares it |
| Extract.EmbeddedCount | cmd/go-extract/extract.go:162-172 | one embedded type per unnamed field, each rendered by `typeString` |
| Extract.ExtractParams | cmd/go-extract/extract.go:119-135 | a missing field list gives no names; otherwise every name of every field, in order |
| Extract.ExtractStruct | cmd/go-extract/extract.go:154-193 | the struct's LOC spans its declaration, it has no methods yet, is exported exactly when its name is, and has at most one embedded type per field |
| Extract.ExtractInterface | cmd/go-extract/extract.go:196-217 | the loop over the method fields returns `InterfaceOf` |
| Extract.ExtractFunction | cmd/go-extract/extract.go:77-116 | the function's LOC spans its declaration and its body is a piece of the source at most as long as it |
| Extract.MethodsOfMembers | cmd/go-extract/extract.go:33-71 | a method name is attached to a receiver name exactly when a function with that receiver declares it |
| Extract.ExtractNodesSpec | cmd/go-extract/extract.go:26-73 | one struct per struct declaration, each with exactly the methods declared on its name |
| Extract.VisitSpecs | cmd/go-extract/extract.go:48-60 | the spec loop appends the struct and interface specs in order |
| Extract.VisitSpec | cmd/go-extract/extract.go:49-59 | one spec: a struct type adds its struct record, an interface type its interface record, any other spec adds nothing |
| Extract.VisitNodes | cmd/go-extract/extract.go:35-64 | the node walk collects the functions, structs and interfaces in order, and the receiver map holds exactly the receivers with methods, each with its method names |
| Extract.FileFunction | cmd/go-extract/extract.go:37-42 | one function is appended and its name is added to its receiver's list |
| Extract.AttachMethods | cmd/go-extract/extract.go:66-71 | every struct keeps its data and gets exactly the methods of its name |
| Extract.ExtractFile | cmd/go-extract/extract.go:13-74 | a read error and a parse error are reported with their prefixes; otherwise the result is `ExtractNodes` |
| Extract.StructsNoMethods | cmd/go-extract/extract.go:154-193 | before attachment every struct has no methods |
| Config.MergeKeys | desloppify/lang/go/config.py:45-57 | every key of either side is kept; a key only in the overrides is added with its value; a key the overrides do not mention is left alone |
| Config.MergeBoth | desloppify/lang/go/config.py:50-57 | a key on both sides: two dicts merge recursively, two lists are unioned, any other pair takes the override |
| Config.UnionSpec | desloppify/lang/go/config.py:52-55 | the extended list keeps the base list as its prefix and appends, once each, exactly the override items it lacked |
| Config.UnionAppendsFresh | desloppify/lang/go/config.py:52-55 | the extended list is the base list followed by the override items it lacked, each at its first occurrence and in the order the overrides list them |
| Config.FreshMembers | desloppify/lang/go/config.py:52-55 | an item is appended exactly when the overrides hold it and the base list does not |
| Config.UnionHeld | desloppify/lang/go/config.py:53-55 | extending a list by items it already holds changes nothing |
| Config.MergeValueSelf | desloppify/lang/go/config.py:45-57 | merging a value into itself gives it back |
| Config.MergeMapsSelf | desloppify/lang/go/config.py:45-57 | merging a configuration into itself gives it back |
| Config.MergeValueTwice | desloppify/lang/go/config.py:45-57 | merging the same override value a second time changes nothing |
| Config.MergeMapsTwice | desloppify/lang/go/config.py:45-57 | merging the same overrides a second time leaves the configuration unchanged |
| Config.MergeEmpty | desloppify/lang/go/config.py:45-47 | an empty override leaves the base as it is |
| Config.LoadGoConfigSpec | desloppify/lang/go/config.py:32-42 | without a file, with one that cannot be read or parsed, or with one that parses to nothing, the result is the defaults; with a mapping it is the defaults merged with it, keeping every default key; any other parsed value is an error |
| Config.PartlyStep | desloppify/lang/go/config.py:47-57 | merging one more key updates only that key |
| Config.MergeConfig | desloppify/lang/go/config.py:45-57 | the key loop, with its recursive call and its append loop, returns `MergeMaps(base, overrides)` |
| GoLang.GoAreaSpec | desloppify/lang/go/__init__.py:35-40 | the area is the path up to the second `/` when there are at least two, up to the first `/` when there is one, and the whole path otherwise |
| GoLang.ClassifySpec | desloppify/lang/go/__init__.py:20-24 | a file takes the zone of the first rule one of whose patterns it contains, and is production when none matches |
| GoLang.GoZoneOrder | desloppify/lang/go/__init__.py:20-24 | generated patterns win over test and config patterns, test over config, and only then do the shared rules decide |
| GoLang.MainTestZone | tests/test_go_integration.py:67-73 | `main_test.go` is a test file |
| GoLang.GenPbZone | tests/test_go_integration.py:67-74 | `gen.pb.go` is generated |
| GoLang.MainZone | tests/test_go_integration.py:67-75 | `main.go` matches none of the Go rules, so its zone is the one the shared rules give it |

## Left out

- File discovery and reading: `find_source_files`, `_find_go_files`, `read_text`, `resolve_path` and `PROJECT_ROOT` are replaced by inputs. Each file is given as its path and content, or as unreadable.
- `_parse_module_path` and its walk up to `go.mod`: the module path is an input (`Deps.Root`), because it comes from the file system.
- `finalize_graph` is not part of this model. Only the `imports`/`importers` edge sets before it are modelled.
- The regular expression engine: each pattern is a hand-written matcher for that one pattern. Backtracking is spelled out only where it can change the result.
- Unicode: character classes, `str.isupper`/`str.lower` and `unicode.IsUpper` are ASCII only.
- `str.splitlines` is modelled as splitting at `\n` only. Python also splits at `\r`, `\v`, `\f` and other separators.
- The temp-file protocol of `apply_fixer` (`.tmp` write, `os.replace`, unlink) is modelled as an outcome. The file is either replaced, or the write fails and the file keeps its content. Printing the skip message is left out.
- YAML parsing in `load_go_config`: the parser's result is an input (`Config.ConfigFile`).
- Config.MergeConfig: works on values, so the in-place mutation of `base` is not modelled. Nor is the aliasing that `base[key] = value` creates between the result and the override object.
- Config.UnionSpec: compares values structurally. Python's `1 == True` equality between `int` and `bool` items is not modelled. YAML floats, dates and timestamps are not among the values, so neither is the `1 == 1.0` equality that would make the list union skip a float equal to an integer already present.
- The Go parser, `token.FileSet` and `ast.Inspect`: a parsed file is given as its declaration nodes in visiting order. Positions are given line numbers and body offsets.
- Extract.ReceiverTypeNameSpec: covers the forms `receiverTypeName` handles. A receiver with several type arguments (`ast.IndexListExpr`, as in `Pair[K, V]`) yields `""`, as in the source. Its methods are therefore not attached.
- Extract.ExtractFunction: the source slices the file by byte offsets, while `text` here holds one character per byte. Sources with non-ASCII characters are not modelled.
- The `%T` fallback of `typeString` is not computed. The `Extract.Expr.Other` node carries its rendering as given.
- `COMMON_ZONE_RULES` and `classify_file` live in a module that is not part of this model. The shared rules are a parameter of `GoLang.GoZoneRules`. Classification takes the first rule with a pattern contained in the path, otherwise production.
- ErrorStrings.FixLineFinal: states only that the literal just rewritten is not matched again. A flagged line with two capital-initial error literals is rewritten again by a second pass, so the whole transform is not idempotent and no such lemma is stated.
- The CLI (`commands.py`, `commands/detect.py`), `badge.py`, `cmd/go-extract/main.go` argument handling and JSON output, and the registry in `fixers/__init__.py` and `register_lang`: presentation and wiring only.
- `extractors.py` and `detectors/unused.py` return empty results, and `go vet` is an external process.

## Findings

| source | as written | input that shows it | evidently intended | confidence | as-written member | corrected member |
|---|---|---|---|---|---|---|
| desloppify/lang/go/fixers/regex_hoist.py:33-64 | Entries are hoisted in descending line order, but each hoist inserts a line at the loop's index, above the entry. Every line between the loop and that entry moves down by one, so a second flagged assignment in the same loop is looked up one line too high. | Lines `for {`, `a := regexp.Compile("p")`, `b := regexp.Compile("q")`, `}` with entries at lines 2 and 3. Line 3 is hoisted first. Line 2 then names the `for` line, which does not match, so `a` stays in the loop and is not reported. | Every flagged assignment that qualifies on the file as read is hoisted above its loop and reported, which is what the comment on the descending sort promises. | not executed | RegexHoist.ShiftSkipsEntry | RegexHoist.CorrectedTransformLines, RegexHoist.CorrectedTransformIds |
