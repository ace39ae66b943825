# falling-sky builder, modelled in Dafny

This project models the sequential core of the falling-sky site builder, a Go
program. The builder turns a tree of page templates into one translated copy
of every page per language. It then runs each copy through configured shell
commands (tidy, minifiers, gzip).

One module per source file, all verified together:

| module | file | models |
|---|---|---|
| `Wrappers` | `wrappers.dfy` | `Option` and `Result` |
| `Text` | `text.dfy` | the Go `strings` functions the core uses: `TrimSpace`, the `\s+` collapse, `Index`, `Split`, `SplitN(…, 2)`, `Replace(…, -1)`, `HasPrefix`, `HasSuffix`, ASCII `ToUpper` |
| `Sorting` | `sorting.dfy` | `sort.Strings`, and a sequence that lists a map's keys once each |
| `Strconv` | `strconv.dfy` | double-quoted `strconv.Quote` / `strconv.Unquote` with one-letter escapes |
| `PoParse` | `poparse.dfy` | `parseChunk` and `parseHeaders` of `po/po.go` |
| `Po` | `po.dfy` | catalog loading (`Load`, `LoadAll` with statistics), `Languages`, the language names, `Translate`, and `Save` of `po/save.go` |
| `FileUtil` | `readfile.dfy` | the read-through file cache of `fileutil/readfile.go` |
| `Job` | `job.dfy` | `GrabContent`, `TranslateContent`, the macro table, `fixup` and the tidy rule of `ProcessContent`, and `RunJob` with its cache of assembled pages |
| `Config` | `config.dfy` | `Record.Defaults` and `Load` of `config/config.go` |
| `Builder` | `builder.dfy` | the job enumeration of `main` and `copyHelper` |
| `Tcache` | `tcache.dfy` | `TopFiles`, `Files` and `New` of `tcache/tcache.go` |

Where the Go code changes state in place, the model does too:
- Catalogs, the two caches, the configuration record and the template cache are classes.
- Their methods declare what they modify.
- Each loop of the source is a `while` loop.
- Each such method is proved equal to a recursive specification function. The properties are proved about that function.

The file system is a map from path to contents. Outside effects are parameters. These are:
- a directory listing;
- the `text/template` pass;
- the template parser;
- the shell that runs a command;
- the JSON decoder;
- `filepath.Dir`;
- the order in which Go walks a map.

Three behaviours of the code differ from what a reader might expect:
- **Statistics count the header record.** One might expect `OutOf` 3 and `Translated` 1 for a reference catalog with messages A, B and C and a target that translates only A. The code gives 4 and 2. `OutOf` counts every key of the reference catalog, including the header key `""`. A target catalog's header has a non-empty `msgstr` that differs from `""`, so it counts as translated (`Po.HeaderCountsAsTranslated`).
- **The compressed name is not `NAME + ".gz"`.** For a multi-locale job, `NAMEGZ` is the file name, then `.gz`, then the language (`index.html.gz.en_US`), not `index.html.en_US.gz`.
- **A saved catalog does not load back.** `Save` writes `msgstr` with no blank before the quoted text, and `parseChunk` takes the text before a line's first blank as its token. A value with no blank, the empty one included, makes the reader index out of range (`PoParse.GluedTokenPanics`). A value with a blank, such as the fixed header `Save` writes first, is read under a token other than `msgstr`, so the record loses its `msgstr` (`PoParse.GluedTokenForeign`, `Po.SavedMsgStrDoesNotReparse`).

## Model

| member | source | states |
|---|---|---|
| Text.TrimSpace | po/po.go:254 | the result has no leading or trailing white space and is no longer than the input |
| Text.TrimSpaceIdem | po/po.go:254 | trimming twice is trimming once |
| Text.TrimSpaceKeepsChar | po/po.go:254 | trimming keeps every character that is not white space |
| Text.TrimSpaceFixed | po/po.go:254 | text already trimmed is left as it is |
| Text.Collapse | po/po.go:255 | the result has no run of two `\s` characters; it is empty exactly when the input is; a leading `\s` becomes one blank |
| Text.CollapseFixed | po/po.go:255 | collapsed text is left as it is |
| Text.CollapseKeepsChar | po/po.go:255 | collapsing keeps the count of every character that is not white space |
| Text.FirstOcc | po/po.go:134 | `strings.Index`: the index found is an occurrence and no earlier index is; none is found only when there is no occurrence |
| Text.FirstOccChar | builder.go:184 | for one character, the index found holds it and no earlier index does |
| Text.SplitJoin | po/po.go:67 | joining the pieces of `strings.Split` gives back the text, and no piece holds the separator |
| Text.SplitFirstPiece | po/po.go:237-238 | the first piece is a prefix of the text, before the first separator |
| Text.SplitN2 | po/po.go:81 | `SplitN(s, sep, 2)`: one piece when `sep` does not occur, else two pieces around its first occurrence |
| Text.ReplaceAllNone | job/job.go:98 | with no occurrence of the pattern, `strings.Replace(…, -1)` changes nothing |
| Text.ReplaceAllFirst | job/job.go:98 | the first occurrence is replaced and the rest of the text after it is handled the same way |
| Text.ReplaceAllCount | job/job.go:154 | replacing by text with fewer of a character lowers that character's count whenever the pattern occurs |
| Text.ToUpper | po/po.go:245 | the same length, each character mapped to its upper case |
| Text.ToUpperIdem | po/po.go:245 | upper-cased text has no lower-case letter left, and upper-casing it again changes nothing |
| Sorting.Sort | po/po.go:179 | the result is sorted and a permutation of the input |
| Sorting.SortedUnique | po/po.go:179 | two sorted permutations of each other are equal |
| Sorting.LeTotal | po/po.go:179 | any two strings are ordered one way or the other |
| Sorting.LeTrans | po/po.go:179 | the order on strings is transitive |
| Sorting.LeAntisym | po/po.go:179 | strings ordered both ways are equal |
| Sorting.ListsOnceMeans | po/po.go:176-178 | a listing of a map's keys holds exactly the keys, none twice |
| Sorting.ListsOnceAppend | po/po.go:177 | appending a key not yet listed keeps the listing exact |
| Strconv.QuoteChar | po/save.go:33-36 | each character is written as itself or as a backslash and a letter that decodes back to it |
| Strconv.EscapeLetter | po/save.go:33-36 | only `"`, `\` and the control characters are escaped, and their letters decode back |
| Strconv.EscapeValue | po/po.go:85-90 | exactly the letters `a b f n r t v \ "` after a backslash decode to a character |
| Strconv.Quote | po/save.go:35-36 | the quoted text starts and ends with `"` |
| Strconv.Unquote | po/po.go:85-90 | only a one-line text between double quotes is accepted |
| Strconv.QuoteOneLine | po/save.go:33-36 | a quoted text never spans two lines |
| Strconv.UnquoteQuote | po/po.go:86 | unquoting a quoted text gives the text back |
| Strconv.UnquoteQuoteBody | po/po.go:86 | the same round trip for the text between the quotes |
| PoParse.LineStep | po/po.go:75-96 | a line fails with a panic exactly when it is neither a continuation nor `token value`; an empty line changes nothing |
| PoParse.ParseLine | po/po.go:75-96 | one pass of the chunk loop does what `LineStep` specifies |
| PoParse.ParseChunk | po/po.go:66-106 | the chunk loop and the record built after it give what `ParseChunkSpec` specifies |
| PoParse.Append | po/po.go:92-96 | a value is added under the token, appended to an earlier one; other tokens keep their values |
| PoParse.Get | po/po.go:102-104 | a token the chunk lacks reads as the empty text |
| PoParse.RecordOf | po/po.go:101-105 | the record's fields are the values of `#:`, `msgid` and `msgstr` |
| PoParse.FoldStep | po/po.go:74-97 | a failing line ends the chunk with its error; otherwise the rest is read from the new state |
| PoParse.TokenLine | po/po.go:80-91 | `token value` sets the current token and adds the value, unquoted when it starts with `"`, or fails on a bad quote |
| PoParse.ContinuationLine | po/po.go:85-96 | a quoted line adds its unquoted text to the current token |
| PoParse.ForeignToken | po/po.go:101-105 | a line of any other token does not change the record |
| PoParse.AppendForeign | po/po.go:101-105 | values of tokens other than the three fields do not reach the record |
| PoParse.BadQuoteStops | po/po.go:86-89 | a failing line fails the whole chunk with that line's error |
| PoParse.ChunkNoPanic | po/po.go:80-85 | when every line is well formed, the only possible failure is a bad quote |
| PoParse.QuotedLine | po/po.go:80-91 | a token line with a quoted value adds exactly the value |
| PoParse.RenderedFold | po/po.go:74-97 | the three lines of a written record fill the table with its three fields |
| PoParse.ParseRendered | po/po.go:66-106 | a record written as `#:`, `msgid` and `msgstr` lines with a blank after each token parses back to itself |
| PoParse.GluedTokenPanics | po/po.go:80-83 | a line `msgstr"…"` with no blank makes `parseChunk` index past the split |
| PoParse.GluedTokenForeign | po/po.go:80-91 | a line `msgstr"…"` that can be taken apart is read under a longer token than `msgstr`, and the record is unchanged |
| PoParse.ParseHeaders | po/po.go:108-121 | the loop over the lines gives what `HeadersFrom` specifies |
| PoParse.PutHeader | po/po.go:114-117 | one header line is stored when it holds a `:` |
| PoParse.HeadersFromSnoc | po/po.go:112-118 | one more line is one more `Put` on the table |
| PoParse.HeadersLastWins | po/po.go:112-118 | a key gets the value of its last line; a key no line names keeps its earlier value or stays absent |
| PoParse.HeadersTrimmed | po/po.go:116 | every key and value stored is trimmed |
| Po.KeepRecordsWellFiled | po/po.go:139-149 | every kept record is filed under its `msgid` and has a non-empty `msgid` or `msgstr` |
| Po.KeepRecordsLast | po/po.go:145-148 | a later chunk is kept on top of what the earlier ones left, so the same `msgid` is replaced |
| Po.LoadedShape | po/po.go:134-165 | a loaded file has two chunks or more, a root record, headers parsed from its `msgstr`, the `Language` header, and a language unless it is a `.pot` file |
| Po.NoBlankLineIsBadFormat | po/po.go:134-137 | a text with no blank line is refused as bad format |
| Po.Load | po/po.go:124-170 | the loop over the chunks fails or succeeds as `LoadSpec` does, with its error, and a fresh catalog holds what it loaded |
| Po.File.FromCatalog | po/po.go:126-169 | a loaded catalog starts with zero statistics and an empty write order |
| Po.Normalize | po/po.go:254-255 | the lookup key is trimmed and holds no run of white space |
| Po.NormalizeIdem | po/po.go:254-255 | normalising a normalised key changes nothing |
| Po.EscapeQuotes | po/po.go:294-297 | the two replacements escape each `"` and `'` with a backslash, one character at a time |
| Po.EscapeQuotesEach | po/po.go:295-296 | replacing `"` and then `'` is the same as escaping each character |
| Po.LangOf | po/po.go:235-239 | the language is the part of the locale before its first `_` |
| Po.File.GetLocale | po/po.go:229-232 | the locale is the `Language` header itself |
| Po.File.GetLang | po/po.go:235-239 | a prefix of the locale with no `_`, followed by `_` or the end |
| Po.File.GetLangUC | po/po.go:242-246 | the language in upper case, character by character |
| Po.GetLangUnique | po/po.go:235-239 | any prefix with that property is the language |
| Po.File.Translate | po/po.go:250-298 | the input is normalized; `lang`, `langUC` and `locale` give `GetLang`, `GetLangUC` and `GetLocale`; any other key gives its non-empty `msgstr`, else the key itself, each character escaped when asked |
| Po.TranslateReserved | po/po.go:257-265 | `lang`, `langUC` and `locale` give the catalog's names, whatever it holds and without escaping |
| Po.TranslateLookup | po/po.go:285-297 | any other key gives its non-empty `msgstr`, else the normalised input, escaped when asked |
| Po.TranslateNormalized | po/po.go:254-255 | texts that normalise alike translate alike |
| Po.TranslatedIn | po/po.go:208-216 | the translated keys are keys of the template |
| Po.TranslatedInAdd | po/po.go:209-215 | one more template key adds one to the count exactly when its translation is non-empty and differs from it |
| Po.CountStats | po/po.go:208-217 | the loop over the template keys counts them all, and counts the translated ones |
| Po.File.AddStats | po/po.go:208-217 | `OutOf` grows by the number of template keys and `Translated` by the number translated |
| Po.TranslatedAtMostOutOf | po/po.go:208-217 | `Translated` never exceeds `OutOf` |
| Po.HeaderCountsAsTranslated | po/po.go:208-215 | the header record counts as translated |
| Po.LoadCounted | po/po.go:201-217 | a `.po` file is loaded as `Load` does and counted against the template |
| Po.LangFoldStep | po/po.go:199-221 | a listed name that is no `.po` file is skipped; a `.po` file that fails to load fails the loop; otherwise it is filed under its language |
| Po.LangFoldFiledByLanguage | po/po.go:219 | every catalog is filed under its own language |
| Po.LangFoldNoPo | po/po.go:201 | a listing with no `.po` file adds nothing |
| Po.LangFoldFromListing | po/po.go:199-219 | every catalog filed comes from a listed `.po` file, or was there before |
| Po.Files.Add | po/po.go:219 | the file is stored under its language, replacing any earlier one, and every stored file still mirrors its catalog and its counts |
| Po.LoadOne | po/po.go:200-221 | one name of the listing is skipped, fails, or adds its counted catalog under its language |
| Po.LoadAll | po/po.go:185-226 | the template is loaded, the listing's error is returned, and the loop fails or succeeds as `LoadAllSpec` does, each catalog counted |
| Po.Files.constructor | po/po.go:186-193 | a new set holds the template and no language |
| Po.Files.Languages | po/po.go:173-181 | the language codes, each once, sorted |
| Po.BlockAppend | po/save.go:31-37 | a record is written as its optional `#:` line, its `msgid` line, its `msgstr` line and a blank line |
| Po.WriteBlocksStep | po/save.go:30-38 | the loop writes the records in write order, one block each |
| Po.WriteBlocksPrefix | po/save.go:30-38 | writing only appends to the buffer |
| Po.WriteBlocksEnds | po/save.go:30-38 | once a record is written, the buffer ends with a blank line |
| Po.WriteAll | po/save.go:30-38 | the buffer the loop fills is the concatenation of the blocks |
| Po.File.Save | po/save.go:11-41 | the header record is replaced by the fixed one, `""` is put first in the write order, nothing else changes, and the buffer is the blocks in that order |
| Po.SaveTextShape | po/save.go:13-38 | the saved text starts with the fixed header block and ends with a blank line |
| Po.FirstBlockShape | po/save.go:28-38 | the saved text starts with the block of the first name written |
| Po.SavedMsgStrDoesNotReparse | po/save.go:36 | the `msgstr` line as written never gives the record its `msgstr`: it panics for a value with no blank and leaves the `msgstr` as it was otherwise |
| FileUtil.ReadFileFromDisk | fileutil/readfile.go:23-26 | a read gives the contents of a path on the disk, else an error naming it |
| FileUtil.ReadFileCache.constructor | fileutil/readfile.go:19-21 | the cache starts empty |
| FileUtil.ReadFileCache.ReadFileWithCache | fileutil/readfile.go:28-39 | a hit returns what is stored and changes nothing; a miss reads the disk once and stores the outcome, errors included; every later read gives what it would have before |
| FileUtil.ReadTwice | fileutil/readfile.go:31-33 | two reads of a name give the same outcome even when the disk changes between them |
| Job.SkipSpace | job/job.go:22 | `\s*` stops at the first character that is not white space |
| Job.SkipSpaceRun | job/job.go:22 | everything `\s*` passes over is white space |
| Job.CloseAt | job/job.go:22 | a closing `"` followed by `\s*%]` is found at that quote |
| Job.LazyName | job/job.go:22 | `(.*?)` ends at the first quote that closes the directive, within one line |
| Job.LazyNameFirst | job/job.go:22 | no earlier quote closes the directive |
| Job.MatchAt | job/job.go:22 | a directive found starts with `[%` and names a file within one line |
| Job.FindDirective | job/job.go:88 | the directive found is a match at its start |
| Job.FindDirectiveLeftmost | job/job.go:88 | no directive starts before the one found |
| Job.FindDirectiveNext | job/job.go:88 | a position where no directive starts is passed over |
| Job.FindDirectiveNone | job/job.go:88 | when none is found, none starts anywhere |
| Job.DirectiveTextMatches | job/job.go:22 | `[% PROCESS "name" %]` is found as a directive naming `name` |
| Job.IncludeStep | job/job.go:88-98 | one turn of the include loop finishes exactly when no directive is left |
| Job.Expand | job/job.go:87-99 | the loop ends only when no directive is left, and a text with none is returned as it is |
| Job.GrabSpec | job/job.go:72-101 | assembled text holds no directive |
| Job.GrabPlain | job/job.go:85-91 | a file with no directive is returned exactly |
| Job.ExpandMoreFuel | job/job.go:87-99 | the outcome does not depend on the step budget once it suffices |
| Job.ExpandStuck | job/job.go:87-99 | a step that gives back its own text never ends |
| Job.IncludeDirective | job/job.go:76-98 | a directive is replaced by the file `RootDir/name`, or a failed read is fatal |
| Job.SelfInclude | job/job.go:87-99 | a file that includes itself never finishes |
| Job.IncludeOnce | job/job.go:87-99 | a file that includes one plain file gives that file's text |
| Job.IncludeMissing | job/job.go:78-80 | including a missing file is fatal |
| Job.IncludePass | job/job.go:88-98 | one pass through the file cache does what the specification step does, and the cache keeps answering as before |
| Job.ExpandMoves | job/job.go:87-99 | each turn of the loop moves the specification one step on |
| Job.GrabStarts | job/job.go:85 | a failed first read is fatal; otherwise the loop starts from the file's text |
| Job.GrabContent | job/job.go:72-101 | the loop gives what `GrabSpec` specifies and the file cache keeps answering as before |
| Job.FindMarker | job/job.go:23 | a marker found runs from a `{{` to a `}}` |
| Job.FindMarkerLeftmost | job/job.go:139 | it starts at the first `{{` and ends at the first `}}` after it; none is found only when no `}}` follows a `{{` |
| Job.EscapeEachCount | job/job.go:150 | escaping adds no `{` |
| Job.TranslateBraces | job/job.go:150 | with no `{` in the catalog, a translation has no more `{` than its text |
| Job.MarkerBraces | job/job.go:146-147 | a marker has two more `{` than its text |
| Job.ReplaceMarker | job/job.go:154 | replacing a marker by its translation leaves fewer `{` |
| Job.ReplaceMarkerBraces | job/job.go:154 | replacing every copy of the marker leaves fewer `{` |
| Job.TranslateAll | job/job.go:136-158 | no marker is left, and text with none is returned as it is |
| Job.TranslatorBraceSafe | job/job.go:150 | with no `{` in the catalog, every translation lowers the count of `{` |
| Job.MarkerFirst | job/job.go:154 | every copy of the marker text is replaced, the text before the first one untouched |
| Job.MarkerTextFirst | job/job.go:146-154 | the marker text does not occur before the marker found |
| Job.TranslateAllStep | job/job.go:139-154 | one turn replaces every copy of the leftmost marker by the translation of its text |
| Job.TranslateInside | job/job.go:150 | the translation is the catalog's `Translate` of the marker's text |
| Job.TranslateContent | job/job.go:136-158 | the loop gives what `TranslateAll` specifies |
| Job.MacroTable | job/job.go:165-173 | the four macros: `NAME` with the language for a multi-locale job, `NAMEGZ` with `.gz` before the language, `INPUT` = `NAME.orig`, `OUTPUT` = `NAME` |
| Job.BuildMacros | job/job.go:165-173 | the assignments fill exactly `MacroTable` |
| Job.MacroTableClean | job/job.go:165-173 | with no `[` in the name and language, no macro holds `[` |
| Job.Fixup | job/job.go:182-188 | the loop over the macros gives what `FixupIn` specifies for the order the map is walked in |
| Job.RenderCons | job/job.go:185 | a command's text is its first piece followed by the rest |
| Job.ResolveCons | job/job.go:185 | references are resolved piece by piece |
| Job.Resolve | job/job.go:183-186 | resolving keeps the number of pieces |
| Job.ReplaceAllLitPrefix | job/job.go:185 | text without `[` before a reference is passed over |
| Job.RefOtherPrefix | job/job.go:184-185 | a reference to another macro is left in place |
| Job.RefSamePrefix | job/job.go:184-185 | a reference to the macro is replaced by its value |
| Job.PieceStep | job/job.go:183-186 | one macro substitution resolves one piece |
| Job.ResolveStep | job/job.go:183-186 | one macro substitution resolves its references in a command |
| Job.ResolveNone | job/job.go:183 | resolving no macro changes nothing |
| Job.FixupResolve | job/job.go:183-186 | the substitutions in any order resolve exactly the macros walked |
| Job.FixupPieces | job/job.go:182-188 | `fixup` replaces every reference by its value, whatever order the map is walked in |
| Job.MacroRef | job/job.go:165-188 | `[k]` becomes the value of macro `k` |
| Job.Forgiven | job/job.go:215-222 | an error is forgiven exactly when the command starts with `tidy ` and the error is `exit status 1` |
| Job.RunTasksShape | job/job.go:200-227 | the commands run are the fixed-up tasks in order; all before the last were forgiven; the run stops at the first unforgiven error, reported with its command |
| Job.ProcessContent | job/job.go:160-229 | the page goes to `OutputDir/INPUT`, and the commands run as `RunTasks` specifies |
| Job.ParsedCache.constructor | job/job.go:66-68 | the cache starts empty |
| Job.RunJob | job/job.go:234-267 | a hit uses the stored text and changes no cache; a miss stores the template pass over the assembled text, never the translation; a failed assembly stores nothing |
| Job.RunTwoLanguages | job/job.go:245-259 | two jobs for the same file in different languages translate the same assembled text |
| Config.DefaultsOf | config/config.go:27-73 | each empty field gets its own default (`templates`, `translations`, `output`, the note, JS and CSS lists, the HTML list as written with `[DONE]`, the PHP list) and each non-empty field is kept |
| Config.DefaultsIdempotent | config/config.go:27-73 | defaulting twice is defaulting once |
| Config.DefaultsOfEmpty | config/config.go:28-72 | an empty record gets `templates`, `translations`, `output` and the default command lists, whose HTML compression command is `sed < [DONE] …` |
| Config.Record.constructor | config/config.go:77 | a new record is empty |
| Config.Record.Assign | config/config.go:85 | the decoded settings are stored |
| Config.Record.Defaults | config/config.go:27-73 | the fields assigned one by one give `DefaultsOf` of the old record, the HTML default included |
| Config.Load | config/config.go:76-92 | an empty file name gives the defaulted empty record; a decode error is returned; otherwise the decoded record, defaulted |
| Config.SedRender | config/config.go:65 | the default HTML compression command is `sed < ` its input reference, the script, and `> [NAMEGZ]` through gzip |
| Config.SedResolve | config/config.go:65 | the HTML compression command, with its input resolved |
| Config.SedFixup | config/config.go:65 | `fixup` of the compression command replaces its input reference and `[NAMEGZ]` |
| Config.HTMLAsWrittenReadsDone | config/config.go:65 | `[DONE]` is no macro, so the command as written still reads `[DONE]` after `fixup` |
| Config.DefaultHTMLReadsDone | config/config.go:62-66 | a configuration with no HTML commands gets a compression command that still reads `[DONE]` after `fixup`, for every job |
| Config.HTMLDefaultReadsPage | config/config.go:64-65 | with `[NAME]` in place of `[DONE]`, the command reads the page the tidy command has just written |
| Builder.Basename | builder.go:184 | the base name is a prefix of the file name with no `.`, ending at the first `.` or at the end |
| Builder.BasenameUnique | builder.go:184 | any such prefix is the base name, so it is exactly the text before the first `.` |
| Builder.Launch | builder.go:174-196 | a job's locale, language, upper-case language and catalog come from its catalog, with the entry's commands |
| Builder.LaunchIgnoresLocale | builder.go:174-183 | the `locale` argument makes no difference |
| Builder.Matching | builder.go:202-203 | exactly the files with the entry's extension |
| Builder.LaunchLanguages | builder.go:207-209 | one job per language in the map's order, each with that language's catalog |
| Builder.FileJobs | builder.go:203-210 | a matching file yields its reference job first, then, for a multi-locale entry, one job per language with that language's catalog, each language once |
| Builder.LanguagesCovered | builder.go:205-209 | the reference job and the per-language jobs hold the file's job for every language |
| Builder.CoveredAppend | builder.go:202-211 | jobs queued before or after a file's jobs do not remove them |
| Builder.EntryCountIs | builder.go:202-211 | F matching files yield F·(M+1) jobs when multi-locale and F otherwise |
| Builder.EntryJobs | builder.go:202-212 | F·(M+1) or F jobs, each for a matching file with a loaded catalog; every matching file has its reference job and, when multi-locale, its job for every language |
| Builder.EntryStep | builder.go:202-211 | appending the next matching file's jobs keeps the files before it covered and covers it |
| Builder.EnumerateJobs | builder.go:161-213 | a listing error is fatal; otherwise as many jobs as `Enumerated` counts, each with a loaded catalog, and every matching file of every entry has its reference job and its language jobs |
| Builder.EnumeratedErr | builder.go:161-166 | an entry whose directory cannot be listed makes the enumeration from it on fail with that listing's error |
| Builder.EnumeratedAt | builder.go:161-166 | when an entry's directory lists, the enumeration from it on counts its matching files times its jobs per file, then the rest's |
| Builder.EntriesStep | builder.go:161-211 | appending the next entry's jobs keeps every entry before it covered and covers it |
| Builder.MultiLocaleCount | builder.go:202-211 | one multi-locale entry yields F·(M+1) jobs |
| Builder.TargetsHas | builder.go:29-52 | every file that is no backup is written |
| Builder.BackupNotWritten | builder.go:30-32 | no backup is written |
| Builder.CopyOne | builder.go:36-52 | one file is read, its directory made the first time it is met, and written with the contents read |
| Builder.CopyHelper | builder.go:23-54 | the listing's error is returned; otherwise the first unreadable file fails, reported as `<nil>` as written or with its read error when corrected, or every file that is no backup is copied with its contents and each directory is made once |
| Builder.CopyFailureAt | builder.go:36-39 | a failed copy names the file whose read failed |
| Builder.CopyReadFailureAsWritten | builder.go:37-38 | as written, the copy fails exactly when a read fails, and reports `<nil>` whichever file it was; corrected, it reports the read's error naming the path |
| Tcache.Top | tcache/tcache.go:31-35 | exactly the keys with no `/` |
| Tcache.ScanKeys | tcache/tcache.go:70-85 | only names that are no backup and hold no `/` are stored, each with its parse |
| Tcache.ScanComplete | tcache/tcache.go:70-87 | when no parse fails, every such name is stored |
| Tcache.KeptAfter | tcache/tcache.go:84 | a stored name stays stored |
| Tcache.ScanFailureAt | tcache/tcache.go:79-83 | a failure names the file `path/name` that did not parse, with the parser's error |
| Tcache.Tcache.constructor | tcache/tcache.go:52 | the cache starts empty |
| Tcache.Tcache.TopFiles | tcache/tcache.go:29-38 | the keys with no `/`, each once, sorted; the cache is not modified |
| Tcache.Tcache.Files | tcache/tcache.go:41-48 | every key once, sorted; the cache is not modified |
| Tcache.New | tcache/tcache.go:51-88 | the listing's error is returned with an empty cache; otherwise the loop of `Scan`, keeping what it stored even when a parse fails; no stored name is a backup or holds `/` |
| Tcache.TopWithinFiles | tcache/tcache.go:29-48 | `TopFiles` lists a subset of `Files` |
| Tcache.TopFilesAreFiles | tcache/tcache.go:29-48 | for a cache `New` built, `TopFiles` and `Files` are equal |

## Left out

- The job queue (`QueueTracker`, `StartQueue`, `RunQueue`, `Add`, `Wait`) is not modelled: its point is concurrency. The mutexes of the two caches are not modelled either; the caches are used one call at a time.
- Jobs are collected in a sequence instead of being handed to `jobTracker.Add`.
- `ProcessTemplate` (`text/template`) is a parameter that sees the content only. Go also passes `qi.Data`, so the locale-free cache key of `RunJob` is sound only for templates that do not read it.
- The template parser of `tcache.New`, and its `PROCESS` function, are a parameter. A parsed template is represented by the parser's result.
- The shell is a parameter from command text to its error. Its standard error, its working directory and the file the page is written to are not modelled. `ProcessContent` returns the output path instead of writing it.
- The order in which Go walks a map is a parameter: the `order` sequence of `fixup`, and a chosen element in `Languages`, `TopFiles`, `Files` and the language loop of `main`.
- Job.GrabContent: a step budget `fuel` bounds the include loop. A loop the Go program would run forever ends as `OutOfFuel`.
- Job.TranslateContent: requires that no translation and no `Language` header holds `{`. Without this, the Go loop need not end.
- A `parseChunk` line that makes Go index out of range ends as an `IndexPanic` error; the Go program crashes instead.
- The two regular expressions are matched by hand-written scanners. `\s` is the ASCII white space set, and the `(?ms)` flags are modelled as letting a marker span lines.
- `strconv.Quote` and `Unquote` handle only one-letter escapes. Hexadecimal, octal and Unicode escapes, raw strings and the quoting of non-printable characters are not modelled. `ToUpper` is ASCII only.
- Config.Load: a decoder error leaves the record empty. Go's `json.Unmarshal` may already have filled part of it. The read of the file is folded into the decoder parameter.
- `Record.String` and `Example` (JSON output) are not modelled.
- Several identifiers in `builder.go` come from another revision of the program. These are `job.PostInfoType`, `conf.Processors.Apache`, `languages.NewPot`, `ApacheAddLanguage`, `signature`, `conf.Options` and `ImagesDir`/`TransparentDir`. The entry table and the reference catalog are therefore parameters.
- `GitInfo`, `PoMap`, `AddLanguage` and `DirSignature` of a job's template data are not modelled. The job's `Config` is reduced to its output directory.
- `Save` of `po/save.go` writes `f.InOrder`, which `po/po.go` does not declare. The model adds it as a field of `Po.File`. `Save` returns the buffer instead of writing the file.
- Reads of the file system can only fail because the path is missing. Other operating-system errors are not modelled.
- `prepOutput`, the symlinks, and the `MkdirAll` and `WriteFile` calls of `copyHelper` (and their errors) are file-system effects. `CopyHelper` returns the directories made and the files written instead.
- `copyFiles` and `copyFilesAll` differ only in the listing they pass. The listing is a parameter, and `filepath.Dir` is a parameter `dir`.
- `gitinfo`, `tfuncs`, `structs` and `fileutil/files.go` are not part of this model.
- The timing and logging of `RunJob` and of the loops are not modelled.

## Findings

| source | as written | input that shows it | evidently intended | confidence | as-written member | corrected member |
|---|---|---|---|---|---|---|
| config/config.go:65 | the default HTML compression command reads `[DONE]`, which is not one of the four macros, so `fixup` leaves it and the shell reads a file that does not exist; the pipeline's status is gzip's, so the job goes on with an empty `.gz` | an HTML job with an empty `HTML` list in the configuration, file `index.html`, language `en_US` | read `[NAME]`, the page the tidy command has just written | not executed | Config.HTMLAsWrittenReadsDone | Config.HTMLDefaultReadsPage |
| builder.go:37-38 | a failed read in `copyHelper` calls `log.Fatal(err)`, where `err` is the listing's error, nil by then, so the program stops printing `<nil>`; the `WriteFile` check at builder.go:50-51 does the same | a listing naming `a.png` with `source/a.png` missing from the disk | report the read's own error `e`, naming the path | not executed | Builder.CopyReadFailureAsWritten | Builder.CopyFailureAt |
