# Sass engine of Dna.Web.Core, in Dafny

This project models `DnaSassEngine`, the engine that turns `.scss` files into `.css`. It covers:

- **Classification.** `PreProcessFile` switches off the generic tag and variable processing. It marks a file as a partial when its file name starts with `_`. It gives files inside a `.sass-cache` folder a skip message.
- **Output record.** `PostProcessOutputPaths` adds one output record per file. The record carries the unprocessed contents.
- **Include discovery.** `GetIncludeTag` finds the first `@import ... ;` line of a file. When the line's body is a quoted list, it yields the file that each quoted name includes. The name gets `.scss` added and is resolved against the including file's directory. When the name has no `_` and its `_` sibling exists, the sibling is preferred.
- **Compilation outcome.** `GenerateOutput` is modelled only as the outcome the engine sees. The options it passes are modelled. The compiler and the file writer are parameters.

## Modules

- `Wrappers` holds `Option`.
- `Strings` holds ordinal versions of the .NET string operations used: `Replace`, `StartsWith`, `EndsWith`, `Contains` and `Trim`. White space is `Char.IsWhiteSpace`.
- `Paths` holds `Path.GetFileName`, `Path.GetDirectoryName` and `Path.Combine` for `/`-separated paths.
- `ImportStatement` holds the import-line regex, `@import\s*(.*?(?=\;))\;\s*$` under `RegexOptions.Multiline`.
  - It is stated twice: as a predicate on the match positions, and as a scanner.
  - The scanner is proved to return exactly the match .NET's backtracking matcher returns: leftmost start first, the greedy `\s*` longest, the lazy `.*?` shortest, the trailing `\s*` longest.
  - It returns nothing exactly when no match exists.
- `ImportList` holds the token regex, `['"]([^ '"]*)['"]`, as a scanner that follows `Regex.Matches`. It also holds a renderer of token lists, used for the round trip.
- `IncludeTag` holds the per-name rules: the extension, the partial override and one whole call of `GetIncludeTag`, as functions, with their properties.
- `IncludeTagProperties` holds consequences for whole statements:
  - the round trip from a written list;
  - the CSS `@import url(...)` form;
  - two imports on one line;
  - `'` and `"` being interchangeable.
- `SassEngine` holds the records `FileProcessingData` and `FileOutputData` and the class `DnaSassEngine`.
  - `PreProcessFile`, `PostProcessOutputPaths` and `GenerateOutput` update the records in place.
  - `GetIncludeTag` builds the include list in a loop. It is proved equal to the function `IncludeTag.GetIncludeTag`.

The environment becomes parameters:

- The file system is the set `existing` of paths for which `File.Exists` holds.
- `DnaConfiguration.ResolveFullPath` is the function `resolve(directory, path)`.
- `GetDefaultOutputPath` is the path handed to `PostProcessOutputPaths`.
- `Scss.ConvertToCss` is the function `convert`.
- `FileManager.SaveFile` is the function `save`. It gives the failure message when the write fails.

## Model

| member | source | states |
|---|---|---|
| ImportStatement.MatchesAt | DNAWebBasics/dna-web-develop/dna-web-develop/Source/Dna.Web.Core/Engines/SassEngine/DnaSassEngine.cs:25 | the pattern stated on positions: the keyword, a white run, a body without line breaks, the `;`, then white space up to a line end |
| ImportStatement.IsFirstMatch | DNAWebBasics/dna-web-develop/dna-web-develop/Source/Dna.Web.Core/Engines/SassEngine/DnaSassEngine.cs:184 | the match `Regex.Match` returns: a match that comes no later than any other in backtracking order |
| ImportStatement.WhiteRunEnd | DNAWebBasics/dna-web-develop/dna-web-develop/Source/Dna.Web.Core/Engines/SassEngine/DnaSassEngine.cs:25 | the greedy `\s*` stops at the end of the white-space run: everything before is white, the character at the end is not |
| ImportStatement.TrailerEnd | DNAWebBasics/dna-web-develop/dna-web-develop/Source/Dna.Web.Core/Engines/SassEngine/DnaSassEngine.cs:25 | the trailing `\s*$` ends on white space at a line end, and no longer such run exists |
| ImportStatement.Terminator | DNAWebBasics/dna-web-develop/dna-web-develop/Source/Dna.Web.Core/Engines/SassEngine/DnaSassEngine.cs:25 | the lazy `.*?(?=\;)\;` stops at the first `;` on the line followed only by blank space to a line end, and at no earlier one |
| ImportStatement.MatchAt | DNAWebBasics/dna-web-develop/dna-web-develop/Source/Dna.Web.Core/Engines/SassEngine/DnaSassEngine.cs:25 | whatever it returns is a match of the pattern starting at the given position |
| ImportStatement.FindFrom | DNAWebBasics/dna-web-develop/dna-web-develop/Source/Dna.Web.Core/Engines/SassEngine/DnaSassEngine.cs:25 | whatever it returns is a match of the pattern starting at the given position or later |
| ImportStatement.FindImport | DNAWebBasics/dna-web-develop/dna-web-develop/Source/Dna.Web.Core/Engines/SassEngine/DnaSassEngine.cs:184 | whatever it returns is a match of the pattern in the text |
| ImportStatement.Body | DNAWebBasics/dna-web-develop/dna-web-develop/Source/Dna.Web.Core/Engines/SassEngine/DnaSassEngine.cs:193 | group 1 spans from the body start to the `;` |
| ImportStatement.MatchAtIsFirst | DNAWebBasics/dna-web-develop/dna-web-develop/Source/Dna.Web.Core/Engines/SassEngine/DnaSassEngine.cs:25 | at one start position, the match returned comes first in backtracking order, and none is returned only when no match starts there |
| ImportStatement.FindFromIsFirst | DNAWebBasics/dna-web-develop/dna-web-develop/Source/Dna.Web.Core/Engines/SassEngine/DnaSassEngine.cs:25 | from a position onward, the match returned comes first in backtracking order, and none is returned only when nothing matches from there |
| ImportStatement.FindImportIsFirstMatch | DNAWebBasics/dna-web-develop/dna-web-develop/Source/Dna.Web.Core/Engines/SassEngine/DnaSassEngine.cs:184 | `Regex.Match`: the result is the first match in .NET's order, and there is none exactly when nothing in the text matches |
| ImportStatement.NoTrailerBeforeText | DNAWebBasics/dna-web-develop/dna-web-develop/Source/Dna.Web.Core/Engines/SassEngine/DnaSassEngine.cs:25 | a non-blank character later on the same line stops `\s*$` from matching |
| ImportStatement.SingleStatementLine | DNAWebBasics/dna-web-develop/dna-web-develop/Source/Dna.Web.Core/Engines/SassEngine/DnaSassEngine.cs:190-193 | the one-line text `@import <body>;` matches as a whole, with group 1 exactly the body, even when the body holds a `;` |
| ImportList.NameLength | DNAWebBasics/dna-web-develop/dna-web-develop/Source/Dna.Web.Core/Engines/SassEngine/DnaSassEngine.cs:32 | the greedy `[^ '"]*` covers only name characters and stops at the first other character |
| ImportList.Tokens | DNAWebBasics/dna-web-develop/dna-web-develop/Source/Dna.Web.Core/Engines/SassEngine/DnaSassEngine.cs:201 | no token holds a space or a quote, and there are at most half as many tokens as characters |
| ImportList.NameLengthQuoteBlind | DNAWebBasics/dna-web-develop/dna-web-develop/Source/Dna.Web.Core/Engines/SassEngine/DnaSassEngine.cs:32 | swapping quote kinds leaves the name run and its text unchanged |
| ImportList.TokensQuoteBlind | DNAWebBasics/dna-web-develop/dna-web-develop/Source/Dna.Web.Core/Engines/SassEngine/DnaSassEngine.cs:32 | swapping `'` and `"` anywhere gives the same tokens |
| ImportList.NameLengthOfName | DNAWebBasics/dna-web-develop/dna-web-develop/Source/Dna.Web.Core/Engines/SassEngine/DnaSassEngine.cs:32 | the name run stops exactly at the first space or quote |
| ImportList.TokensOfDelimited | DNAWebBasics/dna-web-develop/dna-web-develop/Source/Dna.Web.Core/Engines/SassEngine/DnaSassEngine.cs:32 | a name between two quotes of either kind is the next token, and the search resumes after the closing quote |
| ImportList.TokensOfQuoted | DNAWebBasics/dna-web-develop/dna-web-develop/Source/Dna.Web.Core/Engines/SassEngine/DnaSassEngine.cs:30-32 | a single `"a"` is the token `a` |
| ImportList.TokensOfUnclosed | DNAWebBasics/dna-web-develop/dna-web-develop/Source/Dna.Web.Core/Engines/SassEngine/DnaSassEngine.cs:32 | a quote whose name is ended by a space opens no token; the search moves on by one character |
| ImportList.TokensSkipUnquoted | DNAWebBasics/dna-web-develop/dna-web-develop/Source/Dna.Web.Core/Engines/SassEngine/DnaSassEngine.cs:32 | text without quotes gives no token and leaves the tokens after it unchanged |
| ImportList.TokensOfRender | DNAWebBasics/dna-web-develop/dna-web-develop/Source/Dna.Web.Core/Engines/SassEngine/DnaSassEngine.cs:27-32 | splitting `"x", "y", "z"` gives back exactly the list, in order, with duplicates kept |
| ImportList.TwoTokens | DNAWebBasics/dna-web-develop/dna-web-develop/Source/Dna.Web.Core/Engines/SassEngine/DnaSassEngine.cs:28-29 | `"a", "b"` gives `a` then `b` |
| ImportList.MixedQuotes | DNAWebBasics/dna-web-develop/dna-web-develop/Source/Dna.Web.Core/Engines/SassEngine/DnaSassEngine.cs:32 | `'a', "b"` gives `a` then `b` |
| ImportList.SpaceBreaksToken | DNAWebBasics/dna-web-develop/dna-web-develop/Source/Dna.Web.Core/Engines/SassEngine/DnaSassEngine.cs:32 | `"a b"` gives no token at all |
| Strings.Replace | DNAWebBasics/dna-web-develop/dna-web-develop/Source/Dna.Web.Core/Engines/SassEngine/DnaSassEngine.cs:196 | the result has the same length, with every occurrence of one character replaced and all other characters kept |
| Strings.Trim | DNAWebBasics/dna-web-develop/dna-web-develop/Source/Dna.Web.Core/Engines/SassEngine/DnaSassEngine.cs:193 | the result sits in the input with only white space around it, and is empty or has non-white ends |
| Strings.TrimUnchanged | DNAWebBasics/dna-web-develop/dna-web-develop/Source/Dna.Web.Core/Engines/SassEngine/DnaSassEngine.cs:193 | trimming a text without white space at its ends leaves it unchanged |
| Paths.FileName | DNAWebBasics/dna-web-develop/dna-web-develop/Source/Dna.Web.Core/Engines/SassEngine/DnaSassEngine.cs:74 | the file name is the separator-free end of the path, after its last separator |
| Paths.DirName | DNAWebBasics/dna-web-develop/dna-web-develop/Source/Dna.Web.Core/Engines/SassEngine/DnaSassEngine.cs:218 | the directory is a prefix of the path; it is empty exactly when the path has no separator; it does not end with a separator unless it is the root |
| Paths.Combine | DNAWebBasics/dna-web-develop/dna-web-develop/Source/Dna.Web.Core/Engines/SassEngine/DnaSassEngine.cs:227 | joining with an empty side gives the other side; two plain parts are joined by exactly one separator |
| Paths.FileNameAfterSeparator | DNAWebBasics/dna-web-develop/dna-web-develop/Source/Dna.Web.Core/Engines/SassEngine/DnaSassEngine.cs:74 | a separator-free name after a separator is the path's file name |
| Paths.FileNameIs | DNAWebBasics/dna-web-develop/dna-web-develop/Source/Dna.Web.Core/Engines/SassEngine/DnaSassEngine.cs:74 | a separator-free suffix that is the whole path or follows a separator is the file name |
| Paths.FileNameOfAppend | DNAWebBasics/dna-web-develop/dna-web-develop/Source/Dna.Web.Core/Engines/SassEngine/DnaSassEngine.cs:74 | text ending in a separator put in front of a path leaves its file name unchanged |
| Paths.CombineKeepsFileName | DNAWebBasics/dna-web-develop/dna-web-develop/Source/Dna.Web.Core/Engines/SassEngine/DnaSassEngine.cs:227 | combining keeps the file name of a non-empty second part |
| Paths.CombineFileName | DNAWebBasics/dna-web-develop/dna-web-develop/Source/Dna.Web.Core/Engines/SassEngine/DnaSassEngine.cs:227 | the file name of `Combine(d, n)` is `n` |
| Paths.CombineDirName | DNAWebBasics/dna-web-develop/dna-web-develop/Source/Dna.Web.Core/Engines/SassEngine/DnaSassEngine.cs:227 | combining a path's directory with a name gives a path in that same directory |
| Paths.DirNameOfJoin | DNAWebBasics/dna-web-develop/dna-web-develop/Source/Dna.Web.Core/Engines/SassEngine/DnaSassEngine.cs:218 | the directory of `d/n` is `d` |
| IncludeTag.IncludePath | DNAWebBasics/dna-web-develop/dna-web-develop/Source/Dna.Web.Core/Engines/SassEngine/DnaSassEngine.cs:211-231 | the path one quoted name yields: `.scss` added, resolved against the file's directory, then the partial override; characterised by IncludePathEndsInScss and PlainTokenPrefersPartial |
| IncludeTag.IsQuotedList | DNAWebBasics/dna-web-develop/dna-web-develop/Source/Dna.Web.Core/Engines/SassEngine/DnaSassEngine.cs:196-197 | the guard of the call: with `'` read as `"`, the trimmed body starts and ends with `"`; QuotedListByEnds states it on the body's ends |
| IncludeTag.GetIncludeTag | DNAWebBasics/dna-web-develop/dna-web-develop/Source/Dna.Web.Core/Engines/SassEngine/DnaSassEngine.cs:184-238 | one whole call as a function, as the engine computes it; GetIncludeTagOutcome ties it to the first match of the pattern, NotFoundHasNoPaths to its empty result |
| IncludeTag.WithScssExtension | DNAWebBasics/dna-web-develop/dna-web-develop/Source/Dna.Web.Core/Engines/SassEngine/DnaSassEngine.cs:213-215 | the result ends in `.scss`, starts with the name, and is at most `.scss` longer |
| IncludeTag.ExtensionAppendedOnce | DNAWebBasics/dna-web-develop/dna-web-develop/Source/Dna.Web.Core/Engines/SassEngine/DnaSassEngine.cs:213-215 | `x` and `x.scss` give the same path exactly when `x` does not already end in `.scss`; adding the extension twice changes nothing more; `.scss.scss` appears only if it was in the name |
| IncludeTag.PlainNameWithExtension | DNAWebBasics/dna-web-develop/dna-web-develop/Source/Dna.Web.Core/Engines/SassEngine/DnaSassEngine.cs:213-215 | a non-empty name without separators keeps its first character and gains no separator |
| IncludeTag.FileNameKeepsExtension | DNAWebBasics/dna-web-develop/dna-web-develop/Source/Dna.Web.Core/Engines/SassEngine/DnaSassEngine.cs:225 | a path ending in `.scss` has a file name ending in `.scss` |
| IncludeTag.UnderscoredSibling | DNAWebBasics/dna-web-develop/dna-web-develop/Source/Dna.Web.Core/Engines/SassEngine/DnaSassEngine.cs:227 | the sibling's file name is `_` plus the original name, in the same directory |
| IncludeTag.ApplyPartialOverride | DNAWebBasics/dna-web-develop/dna-web-develop/Source/Dna.Web.Core/Engines/SassEngine/DnaSassEngine.cs:225-231 | the result is the path itself or its existing underscored sibling; a name already starting with `_` is never changed |
| IncludeTag.OverrideChoosesSibling | DNAWebBasics/dna-web-develop/dna-web-develop/Source/Dna.Web.Core/Engines/SassEngine/DnaSassEngine.cs:220-231 | the path changes exactly when its name lacks `_` and the underscored sibling exists |
| IncludeTag.OverrideIdempotent | DNAWebBasics/dna-web-develop/dna-web-develop/Source/Dna.Web.Core/Engines/SassEngine/DnaSassEngine.cs:225-231 | applying the override to its own result changes nothing |
| IncludeTag.OverrideKeepsDirectoryAndExtension | DNAWebBasics/dna-web-develop/dna-web-develop/Source/Dna.Web.Core/Engines/SassEngine/DnaSassEngine.cs:225-231 | the override keeps the directory and the `.scss` ending, and changes the file name at most by a leading `_` |
| IncludeTag.IncludePathEndsInScss | DNAWebBasics/dna-web-develop/dna-web-develop/Source/Dna.Web.Core/Engines/SassEngine/DnaSassEngine.cs:213-231 | the path one name yields has a file name ending in `.scss`, whenever resolving that name keeps its file name |
| IncludeTag.CombineKeepsScssFileNames | DNAWebBasics/dna-web-develop/dna-web-develop/Source/Dna.Web.Core/Engines/SassEngine/DnaSassEngine.cs:218 | resolving by plain joining keeps the file name of every `.scss` path |
| IncludeTag.IncludePathsEndInScss | DNAWebBasics/dna-web-develop/dna-web-develop/Source/Dna.Web.Core/Engines/SassEngine/DnaSassEngine.cs:204-234 | every path a call yields has a file name ending in `.scss`, for any resolver that keeps `.scss` file names |
| IncludeTag.PlainTokenPrefersPartial | DNAWebBasics/dna-web-develop/dna-web-develop/Source/Dna.Web.Core/Engines/SassEngine/DnaSassEngine.cs:177-180 | for a plain name resolved by joining it to the directory: `_x.scss` when it exists, otherwise `x.scss` |
| IncludeTag.QuotedListByEnds | DNAWebBasics/dna-web-develop/dna-web-develop/Source/Dna.Web.Core/Engines/SassEngine/DnaSassEngine.cs:195-198 | the quote guard holds exactly when the trimmed body starts and ends with a quote of either kind |
| IncludeTag.FirstMatchUnique | DNAWebBasics/dna-web-develop/dna-web-develop/Source/Dna.Web.Core/Engines/SassEngine/DnaSassEngine.cs:184 | there is at most one first match |
| IncludeTag.GetIncludeTagOutcome | DNAWebBasics/dna-web-develop/dna-web-develop/Source/Dna.Web.Core/Engines/SassEngine/DnaSassEngine.cs:184-238 | with no match the call gives false with no paths; otherwise the first match's trimmed body decides, and its tokens give one path each, in order |
| IncludeTag.NotFoundHasNoPaths | DNAWebBasics/dna-web-develop/dna-web-develop/Source/Dna.Web.Core/Engines/SassEngine/DnaSassEngine.cs:184-198 | a call that gives false has an empty path list; a call that gives true found a statement |
| IncludeTagProperties.RenderShape | DNAWebBasics/dna-web-develop/dna-web-develop/Source/Dna.Web.Core/Engines/SassEngine/DnaSassEngine.cs:171 | a written list starts and ends with `"` and stays on one line |
| IncludeTagProperties.GetIncludeTagOfLine | DNAWebBasics/dna-web-develop/dna-web-develop/Source/Dna.Web.Core/Engines/SassEngine/DnaSassEngine.cs:184-238 | for a text that is one statement on one line, the body alone decides the result |
| IncludeTagProperties.GetIncludeTagOfList | DNAWebBasics/dna-web-develop/dna-web-develop/Source/Dna.Web.Core/Engines/SassEngine/DnaSassEngine.cs:201-238 | a one-line statement whose body is a quoted list gives true and one path per token |
| IncludeTagProperties.RenderedListShape | DNAWebBasics/dna-web-develop/dna-web-develop/Source/Dna.Web.Core/Engines/SassEngine/DnaSassEngine.cs:195-198 | a written list passes the quote guard and needs no trimming |
| IncludeTagProperties.RenderedListIsQuotedList | DNAWebBasics/dna-web-develop/dna-web-develop/Source/Dna.Web.Core/Engines/SassEngine/DnaSassEngine.cs:195-201 | a written list passes the guard and splits back into its tokens |
| IncludeTagProperties.ImportOfRenderedList | DNAWebBasics/dna-web-develop/dna-web-develop/Source/Dna.Web.Core/Engines/SassEngine/DnaSassEngine.cs:166-171 | `@import "x", "y", ...;` gives true and the paths of `x`, `y`, ... in that order |
| IncludeTagProperties.CssUrlImportIsNotAnInclude | DNAWebBasics/dna-web-develop/dna-web-develop/Source/Dna.Web.Core/Engines/SassEngine/DnaSassEngine.cs:195-198 | `@import url(foo);` is found as a statement, but the call gives false with no paths |
| IncludeTagProperties.SingleQuotedToken | DNAWebBasics/dna-web-develop/dna-web-develop/Source/Dna.Web.Core/Engines/SassEngine/DnaSassEngine.cs:173 | `'a'` is the one token `a` |
| IncludeTagProperties.TwoStatementTokens | DNAWebBasics/dna-web-develop/dna-web-develop/Source/Dna.Web.Core/Engines/SassEngine/DnaSassEngine.cs:201 | `"a"; @import 'b'` splits into `a` then `b` |
| IncludeTagProperties.TwoNameBodyOnOneLine | DNAWebBasics/dna-web-develop/dna-web-develop/Source/Dna.Web.Core/Engines/SassEngine/DnaSassEngine.cs:25 | that body starts and ends with a quote and has no line break |
| IncludeTagProperties.TwoNameBodyIsList | DNAWebBasics/dna-web-develop/dna-web-develop/Source/Dna.Web.Core/Engines/SassEngine/DnaSassEngine.cs:195-201 | that body passes the guard and splits into `a` then `b` |
| IncludeTagProperties.TwoImportsOnOneLine | DNAWebBasics/dna-web-develop/dna-web-develop/Source/Dna.Web.Core/Engines/SassEngine/DnaSassEngine.cs:25 | `@import "a"; @import 'b';` on one line is one statement: the first `;` does not end it, and both names are includes, in order |
| IncludeTagProperties.MatchesAtQuoteBlind | DNAWebBasics/dna-web-develop/dna-web-develop/Source/Dna.Web.Core/Engines/SassEngine/DnaSassEngine.cs:25 | the line pattern matches at the same places whatever the quote kinds |
| IncludeTagProperties.FindImportQuoteBlind | DNAWebBasics/dna-web-develop/dna-web-develop/Source/Dna.Web.Core/Engines/SassEngine/DnaSassEngine.cs:184 | the first match is the same whatever the quote kinds |
| IncludeTagProperties.WhiteSpaceQuoteBlind | DNAWebBasics/dna-web-develop/dna-web-develop/Source/Dna.Web.Core/Engines/SassEngine/DnaSassEngine.cs:193 | texts that differ only in quote kinds have white space at the same places |
| IncludeTagProperties.LeadingWhiteSpaceQuoteBlind | DNAWebBasics/dna-web-develop/dna-web-develop/Source/Dna.Web.Core/Engines/SassEngine/DnaSassEngine.cs:193 | such texts start with white space of the same length |
| IncludeTagProperties.TrailingWhiteSpaceQuoteBlind | DNAWebBasics/dna-web-develop/dna-web-develop/Source/Dna.Web.Core/Engines/SassEngine/DnaSassEngine.cs:193 | and end with white space of the same length |
| IncludeTagProperties.TrimQuoteBlind | DNAWebBasics/dna-web-develop/dna-web-develop/Source/Dna.Web.Core/Engines/SassEngine/DnaSassEngine.cs:193 | trimming cuts the same positions whatever the quote kinds |
| IncludeTagProperties.GetIncludeTagQuoteBlind | DNAWebBasics/dna-web-develop/dna-web-develop/Source/Dna.Web.Core/Engines/SassEngine/DnaSassEngine.cs:173 | two files that differ only in quote kinds give the same result |
| IncludeTagProperties.SingleQuotesAsDouble | DNAWebBasics/dna-web-develop/dna-web-develop/Source/Dna.Web.Core/Engines/SassEngine/DnaSassEngine.cs:173 | replacing every `'` of a file by `"` leaves the result unchanged |
| SassEngine.IsPartialPath | DNAWebBasics/dna-web-develop/dna-web-develop/Source/Dna.Web.Core/Engines/SassEngine/DnaSassEngine.cs:74 | the Sass partial rule: the file name starts with `_`; PartialByFileName shows only the file name decides |
| SassEngine.InSassCache | DNAWebBasics/dna-web-develop/dna-web-develop/Source/Dna.Web.Core/Engines/SassEngine/DnaSassEngine.cs:77 | the cache test: the path, with `\` read as `/`, holds `/.sass-cache/`; the lemmas below show both spellings are caught |
| SassEngine.PartialByFileName | DNAWebBasics/dna-web-develop/dna-web-develop/Source/Dna.Web.Core/Engines/SassEngine/DnaSassEngine.cs:72-74 | `dir/name` is a partial exactly when `name` starts with `_` |
| SassEngine.UnderscoredFileIsPartial | DNAWebBasics/dna-web-develop/dna-web-develop/Source/Dna.Web.Core/Engines/SassEngine/DnaSassEngine.cs:74 | `_base.scss` is a partial in any directory |
| SassEngine.PlainFileIsNotPartial | DNAWebBasics/dna-web-develop/dna-web-develop/Source/Dna.Web.Core/Engines/SassEngine/DnaSassEngine.cs:74 | `base.scss` is not a partial in any directory |
| Strings.ReplaceAbsent | DNAWebBasics/dna-web-develop/dna-web-develop/Source/Dna.Web.Core/Engines/SassEngine/DnaSassEngine.cs:77 | replacing a character that does not occur changes nothing |
| SassEngine.ReplaceAroundName | DNAWebBasics/dna-web-develop/dna-web-develop/Source/Dna.Web.Core/Engines/SassEngine/DnaSassEngine.cs:77 | reading `\` as `/` turns `\name\` into `/name/` |
| SassEngine.FolderDetected | DNAWebBasics/dna-web-develop/dna-web-develop/Source/Dna.Web.Core/Engines/SassEngine/DnaSassEngine.cs:77 | a path holding any spelling that normalises to `/.sass-cache/` is in the cache, whatever surrounds it |
| SassEngine.CacheFolderDetected | DNAWebBasics/dna-web-develop/dna-web-develop/Source/Dna.Web.Core/Engines/SassEngine/DnaSassEngine.cs:77 | any path holding `/.sass-cache/` is in the cache |
| SassEngine.BackslashCacheFolderDetected | DNAWebBasics/dna-web-develop/dna-web-develop/Source/Dna.Web.Core/Engines/SassEngine/DnaSassEngine.cs:77 | any path holding `\.sass-cache\` is in the cache |
| SassEngine.NoDotNotInCache | DNAWebBasics/dna-web-develop/dna-web-develop/Source/Dna.Web.Core/Engines/SassEngine/DnaSassEngine.cs:77 | a path without `.` is never in the cache |
| SassEngine.OptionsFor | DNAWebBasics/dna-web-develop/dna-web-develop/Source/Dna.Web.Core/Engines/SassEngine/DnaSassEngine.cs:110-123 | the compiler gets the input and output paths; each setting is the configured value when set, and on its own falls back to Compact style or no source map when unset |
| SassEngine.DefaultOptions | DNAWebBasics/dna-web-develop/dna-web-develop/Source/Dna.Web.Core/Engines/SassEngine/DnaSassEngine.cs:119-122 | with nothing configured, the style is Compact and no source map is made |
| SassEngine.SourceMapPath | DNAWebBasics/dna-web-develop/dna-web-develop/Source/Dna.Web.Core/Engines/SassEngine/DnaSassEngine.cs:131 | the map path is the output path with `.map` added at the end |
| SassEngine.FileOutputData.constructor | DNAWebBasics/dna-web-develop/dna-web-develop/Source/Dna.Web.Core/Engines/SassEngine/DnaSassEngine.cs:92-96 | a new output record holds the given path and contents and nothing compiled |
| SassEngine.DnaSassEngine.constructor | DNAWebBasics/dna-web-develop/dna-web-develop/Source/Dna.Web.Core/Engines/SassEngine/DnaSassEngine.cs:47-54 | the engine reads `.scss` and writes `.css` |
| SassEngine.DnaSassEngine.PreProcessFile | DNAWebBasics/dna-web-develop/dna-web-develop/Source/Dna.Web.Core/Engines/SassEngine/DnaSassEngine.cs:60-80 | all five processing flags are off; the file is partial exactly when its file name starts with `_`; the skip message is set exactly when the path, with `\` read as `/`, holds `/.sass-cache/`, and is otherwise left as it was |
| SassEngine.DnaSassEngine.PostProcessOutputPaths | DNAWebBasics/dna-web-develop/dna-web-develop/Source/Dna.Web.Core/Engines/SassEngine/DnaSassEngine.cs:87-98 | exactly one new record is appended, at the default output path, carrying the unprocessed contents; the earlier records are kept |
| SassEngine.DnaSassEngine.GenerateOutput | DNAWebBasics/dna-web-develop/dna-web-develop/Source/Dna.Web.Core/Engines/SassEngine/DnaSassEngine.cs:105-149 | a failed compilation records the unexpected-error message and leaves the output unchanged; a successful one stores the CSS, and when source maps are on, a failed map write is recorded with the map path and its message |
| SassEngine.DnaSassEngine.ResolveInclude | DNAWebBasics/dna-web-develop/dna-web-develop/Source/Dna.Web.Core/Engines/SassEngine/DnaSassEngine.cs:211-231 | the steps for one name give exactly the path the include rules define |
| SassEngine.DnaSassEngine.GetIncludeTag | DNAWebBasics/dna-web-develop/dna-web-develop/Source/Dna.Web.Core/Engines/SassEngine/DnaSassEngine.cs:159-239 | the match returned is the first statement in the file, and the result with its path list is exactly the one the include rules define, built one name at a time in order |

## Left out

- String comparisons are ordinal. The source's `StartsWith` and `EndsWith` use the current culture, which is not modelled. For the `_`, `"` and `.scss` tests, the two agree for ordinary text.
- Paths are `/`-separated only.
  - `Path.GetFileName` on Windows also splits at `\`, and that is not modelled.
  - `Path.GetDirectoryName` in .NET returns null for a root and for the empty path, and it normalises repeated separators inside a path. The model keeps inner `//` as written, returns `/` for the root and the empty directory for the empty path.
  - The exception `Path.Combine` then throws on a null directory is not modelled.
- `DnaConfiguration.ResolveFullPath`, `GetDefaultOutputPath` and `File.Exists` are not part of this model. They are parameters: a function, a path and a set of existing paths. The `wasRelative` output of `ResolveFullPath` is unused by the engine and dropped.
- `SafeTask.Run` and the `Task` results carry no logic and are left out. The operations are synchronous, and concurrent changes to the file system are out of scope.
- The `DebugEngine` base class is not part of this model. That includes the loop that calls `GetIncludeTag` repeatedly over a file and the defaults of the five `WillProcess*` flags. The constructor therefore states nothing about those flags.
- `FileProcessingData` and `FileOutputData` are reduced to the fields the engine reads or writes. `LocalConfiguration` is flattened into the two Scss settings. Their constructors are plain initialisers.
- The SharpScss compiler (`Scss.ConvertToCss`) and `FileManager.SaveFile` are foreign code. They are the parameters `convert` and `save`, so CSS compilation itself is not modelled.
- SassEngine.DnaSassEngine.GetIncludeTag returns the `Match` as the position record of the statement, or none. The source's `Match` object is not modelled. A failed `Regex.Match` would make the guard at line 187 return false. Without a match the model returns false straight away, which is the same result.
- The guard at line 207 cannot fire: every match of the token pattern has its group 1. The model has no such branch.
- PostProcessOutputPaths adds an output record for every file, partials included. Whether partials are kept from being written is decided outside this file and is not part of this model.
- IncludeTag.IncludePathsEndInScss is stated for a `resolve` that keeps the file name of a `.scss` path, as plain joining does (IncludeTag.CombineKeepsScssFileNames). `DnaConfiguration.ResolveFullPath` is not part of this model, so whether it does is not shown.
- IncludeTag.PlainTokenPrefersPartial is stated for a `resolve` that joins the name to the directory. The general case is covered by IncludeTag.OverrideChoosesSibling and IncludeTag.OverrideKeepsDirectoryAndExtension.
- The browser-side `dna.core.js` of the repository is page glue with no logic to state, and is not part of this model.
