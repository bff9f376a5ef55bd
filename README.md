# elm-delphi lookup pipeline, modelled in Dafny

elm-delphi answers a documentation query for an Elm file from the command
line. It has three steps:

- It reads the file's `import` declarations, after putting a fixed prelude of
  implicit imports in front of the file.
- It classifies the query as a plain name (`map`) or a qualified name
  (`List.map`).
- It searches the documentation of the project's dependencies.
  - A qualified query searches the module whose import carries the qualifier
    as its alias.
  - A plain name searches every module whose exposing list is `..` or holds
    an entry that starts with the name.

The model covers the whole lookup pipeline of `src/delphi.ts`:

- **Import parsing** (`parseImports`). The global, multi-line regular
  expression is modelled as an explicit recognizer, `ImportParser.MatchImport`.
  It makes the same choices as the backtracking engine:
  - `\s` also matches line terminators, so a match may span several lines;
  - `^` and `$` anchor at `\n`, `\r`, U+2028 and U+2029;
  - the `as` clause is tried first;
  - an exposing list is greedy over `[\w.]` entries separated by commas.

  `exec` is the search for the leftmost line start, at or after `lastIndex`,
  where the recognizer succeeds. The `while` loop is a method proved against
  the function `Imports` (`ImportParser.CollectImports` and `ParseImports`).
  Module `Declarations` writes out any declaration the pattern can capture,
  with any white space where the pattern wants some, and proves that the
  parser reads it back and pushes the record it stands for. When the
  declaration has no exposing list, the next line must not begin, after
  white space, with `as` or `exposing`: `\s+` crosses the line end, so
  `import A` followed by `\nas B` is read with the alias `B`. This condition
  is sufficient, not necessary: `import A` followed by `\nasList = 1` is still
  read as `A`, but the lemmas do not cover it. Module `MatchSoundness` proves
  the other direction: the text of every match is what it captured, written
  with the white space found there (`MatchSoundness.MatchSound`).
- **The prelude** (module `Prelude`). What the parser makes of the prelude is
  proved through a general theorem about texts built line by line from known
  line shapes (`LineShapes.ParseRendered`). Parsing the prelude followed by
  any file gives five records followed by the file's own records. The five
  records are `Basics` (exposing `..`), `String`, `Char`, `Tuple` and `Debug`.
  The other eight prelude lines give no record:
  - the `List` line holds `(::)`, and the `Maybe` and `Result` lines hold
    `Maybe(..)` and `Result(..)`, which are outside the list's character set;
  - `Platform exposing ( Program )` has a blank after `(`;
  - `Platform.Cmd` and `Platform.Sub` are not `\w+` module names.
- **Query classification** (`classifyQuery`). The query is split at every
  dot. The last piece is the name, and the rest, joined again with dots, is
  the qualifier. The `errorQuit` branch cannot be taken, because `split`
  never returns an empty array.
- **Search** (`searchByModuleName`), together with the `flatMap` polyfill
  installed on `Array.prototype`.
- **Resolution** (the `if`/`else` block at the end of the program). An empty
  qualifier, as in `.map`, is falsy in JavaScript, so such a query takes the
  unqualified branch.
- `Resolver.Run` is the program after its inputs are read: it parses, then
  classifies, then resolves.

A Dafny `char` is a Unicode scalar value, while the program's strings are
sequences of UTF-16 code units: a character outside the Basic Multilingual
Plane is one `char` here and two code units (a surrogate pair) there. No
result changes. `\w`, `\s`, the line terminators, `,` and `.` all lie inside
that plane and hold no surrogate, so the pattern, `split`, `trim` and
`startsWith` never separate the two halves of a pair. Only the indices counted
along a string differ, and no index is part of a result. The documentation of
the dependencies is a parameter, `docs`.

## Behaviour worth knowing

- **The prelude.** The prelude lists `List`, `Maybe`, `Result` and `Platform`
  imports, but the pattern reads no record from those lines. So `List.map`
  finds nothing unless the file imports `List` itself
  (`Resolver.PreludeHasNoListAlias`).
- **Empty queries.** Only a missing query argument is rejected. `""` splits
  into one piece, so it is classified as the plain name `""`, which every value
  name starts with.
- **Constructor entries.** An exposing entry such as `Maybe(..)` is never
  captured: a list holding `(` is not a list, and the whole line is passed
  over.
- **Empty qualifiers.** A qualified query with an empty qualifier, such as
  `.map`, is looked up like the plain name `map`.
- **Declarations over several lines.** `\s` matches line terminators, so a
  declaration may be broken over lines wherever the pattern wants white space,
  and is still read as one declaration (`Declarations.MatchRenderIn`). For the
  same reason, a declaration without an exposing list takes an `as` or
  `exposing` clause from the next line when that line begins with one, after
  white space; the round-trip lemmas therefore ask that the next line does not.

## Model

| member | source | states |
|---|---|---|
| Text.Split | src/delphi.ts:62 | `split(',')` or `split('.')` gives at least one piece, and no piece contains the separator |
| Text.Join | src/delphi.ts:96 | `join` has no contract of its own; `Text.JoinSplit` states that joining the pieces of a split gives the string back, and `Text.JoinLast` how the last piece is joined |
| Text.JoinSplit | src/delphi.ts:90 | joining the pieces of a split with the separator gives back the original string |
| Text.SplitJoin | src/delphi.ts:62 | splitting a join of separator-free pieces gives back the pieces |
| Text.SplitWithoutSeparator | src/delphi.ts:62 | a string without the separator splits into itself alone |
| Text.SplitPrefix | src/delphi.ts:62 | a separator-free prefix becomes part of the first piece and leaves the other pieces unchanged |
| Text.SplitSinglePiece | src/delphi.ts:90-91 | the split has exactly one piece if and only if the string has no separator |
| Text.JoinLast | src/delphi.ts:95-96 | the join of two or more pieces is the join of all but the last, the separator, then the last piece |
| Text.LastSeparator | src/delphi.ts:95-96 | the text before the last separator and the text after it are determined by the string |
| Text.LeadingSpace | src/delphi.ts:62 | the length of the longest run of `\s` characters at the start of a string |
| Text.TrimStart | src/delphi.ts:62 | the first half of `trim()`: the string after its leading white space |
| Text.TrimEnd | src/delphi.ts:62 | a prefix of the string, all of whose removed tail is white space, that does not itself end in white space |
| Text.Trim | src/delphi.ts:62 | `trim()` is the part between the leading and the trailing white space, and neither starts nor ends with white space |
| Text.TrimUnpadded | src/delphi.ts:62 | trimming a string that neither starts nor ends with white space leaves it unchanged |
| Text.StartsWith | src/delphi.ts:109 | `startsWith`, the prefix test of the search and of the exposing filter; `DocSearch.SearchByModuleName` states that every result starts with the name and `Resolver.ResolveUnqualifiedOne` that an import contributes exactly when an entry starts with the name |
| Text.IsWordChar | src/delphi.ts:54 | the `\w` class without the `u` flag; `ImportParser.Span` and `Declarations.NameRead` state that `(\w+)` captures exactly a maximal run of it |
| Text.IsSpace | src/delphi.ts:54 | the `\s` class, line terminators included, which `trim` also strips; `Declarations.MatchRenderIn` states that any non-empty run of it is accepted wherever the pattern wants white space, and `Text.Trim` what `trim` removes |
| Text.IsLineTerminator | src/delphi.ts:54 | the characters at which `^` and `$` anchor under the `m` flag; `ImportParser.MatchImport` states that every match ends at one of them or at the end of the text |
| Seqs.Filter | src/delphi.ts:105 | `filter` keeps exactly the elements that satisfy the predicate, and never lengthens the array |
| Seqs.Map | src/delphi.ts:176 | `map` has the input's length, and each element is the function applied to the input element at the same index |
| Seqs.MapMembership | src/delphi.ts:176 | an element of a `map` result is the image of some input element, and every such image occurs in the result |
| Seqs.Flatten | src/delphi.ts:41 | `[].concat.apply([], ss)` holds exactly the elements of the arrays in `ss` |
| Seqs.FlatMap | src/delphi.ts:40-42 | the `flatMap` polyfill holds exactly the elements of the arrays the function returns for the inputs |
| Seqs.FilterAll | src/delphi.ts:105 | a filter whose predicate holds for every element returns the array unchanged |
| Seqs.FilterAppend | src/delphi.ts:175 | filtering a concatenation filters each part, keeping the order |
| Seqs.FlattenAppend | src/delphi.ts:41 | flattening a concatenation flattens each part, keeping the order |
| Seqs.MapAppend | src/delphi.ts:176 | mapping a concatenation maps each part, keeping the order |
| Seqs.FlatMapAppend | src/delphi.ts:40-42 | `flatMap` over a concatenation is the concatenation of the two `flatMap`s, so results come in input order |
| Seqs.FlatMapSingle | src/delphi.ts:40-42 | `flatMap` over a one-element array is the function's array for that element |
| ImportParser.Span | src/delphi.ts:54 | where a greedy `\s+`, `\w+` or `[\w.]+` run that starts at `k` stops: every character before that point is in the class, and the character at that point is not |
| ImportParser.IsEntryChar | src/delphi.ts:54 | `[\w\.]`, the characters of an exposed entry; `Declarations.EntryCharIsNotSpace` states that none of them is white space |
| ImportParser.AtLineEnd | src/delphi.ts:54 | `$` under the `m` flag: the end of the text or just before a line terminator; `ImportParser.MatchImport` states that every match ends there |
| ImportParser.ListBetween | src/delphi.ts:54 | a stretch `(?:[\w\.]+(?:,\s*)?)+` matches: it starts with an entry character and every character may follow the one before it; `ImportParser.ListEnd` states that the greedy list ends where no character can continue it |
| ImportParser.IsExposingList | src/delphi.ts:54 | the language of the third capture group; `Declarations.ListedIsList` states that entries written with commas and white space belong to it, and `ImportParser.ExposingClause` that every captured list does |
| ImportParser.SpanIs | src/delphi.ts:54 | a greedy run is determined by where it ends |
| ImportParser.ListEnd | src/delphi.ts:54 | the greedy exposing list `(?:[\w.]+(?:,\s*)?)+` that starts at `k` is non-empty exactly when an entry character is at `k`, is in the list language, and cannot be continued |
| ImportParser.ListBetweenSlice | src/delphi.ts:54 | a stretch of text that the list part of the pattern matches is, on its own, a string of the list language |
| ImportParser.EntryRun | src/delphi.ts:54 | an entry that is not followed by a comma is a whole exposing list |
| ImportParser.ListAfterComma | src/delphi.ts:54 | an entry, a comma, white space and the rest of a list together form one list |
| ImportParser.AsClause | src/delphi.ts:54 | a successful `\s+as\s+(\w+)` captures a word alias and consumes at least one character |
| ImportParser.ExposingClause | src/delphi.ts:54 | a successful `\s+exposing\s+\((...)\)` captures a string of the list language and consumes at least one character |
| ImportParser.ParenthesisedList | src/delphi.ts:54 | a successful `\s+\((...)\)` captures a string of the list language and ends after the `)` |
| ImportParser.WellFormed | src/delphi.ts:54 | what the pattern can capture: word names and a list of the list language; `ImportParser.MatchImport` states that every capture is well formed, and `Declarations.MatchRenderIn` that every well-formed declaration is captured back |
| ImportParser.Remainder | src/delphi.ts:54 | the optional exposing clause followed by `$`: on success the match ends at a line end, keeps the name and the alias, and captures a valid list |
| ImportParser.AfterName | src/delphi.ts:54 | everything after the module name: on success the match ends at a line end, with a word alias, if any, and a valid list, if any |
| ImportParser.MatchImport | src/delphi.ts:54 | the anchored pattern: a match starts with `import`, is longer than 6 characters, ends at a line end, and captures only word names and a valid exposing list; `MatchSoundness.MatchSound` states that the text of every match is the written form of what it captured |
| ImportParser.MatchImportAdvances | src/delphi.ts:54 | every match of the pattern is non-empty and lies within the text, so the `exec` loop advances |
| ImportParser.Exec | src/delphi.ts:58 | `regex.exec` finds a match that starts at a line start at or after `lastIndex` |
| ImportParser.LineStart | src/delphi.ts:54 | `^` under the `m` flag: the start of the text or just after a line terminator; `ImportParserProofs.ScanMatches` states that every match starts at one, and `ImportParserProofs.ExecLeftmost` that none is skipped |
| ImportParser.ImportsOfScanStep | src/delphi.ts:58-63 | one turn of the loop: the match that `exec` finds contributes its record ahead of the records that follow it |
| ImportParser.Scan | src/delphi.ts:57-63 | the matches the `exec` loop finds; `ImportParserProofs.ScanMatches`, `ScanOrdered` and `ScanCovers` state that they are real matches at line starts, in order, without overlap, and that no match is missed |
| ImportParser.ToImport | src/delphi.ts:62 | the record pushed for a match; `Declarations.ExposingEntriesThenFile` states that the alias defaults to the module name and that entries written with commas and any white space come back as exactly those entries, and `LineShapes.SingleEntryRecord` the single-entry case |
| ImportParser.ImportsOf | src/delphi.ts:62 | one record per match, in order; `ImportParser.ImportsOfScanStep` states that a loop turn puts its record ahead of the rest, and `ImportParserProofs.ImportsOfShifted` that records do not depend on where the matches lie |
| ImportParser.Imports | src/delphi.ts:53-65 | the records of a text; `ImportParser.ParseImports` is proved equal to it, `Declarations.DeclarationThenFile` states what a declaration followed by a file gives, and `Prelude.PreludeThenFile` what the prelude followed by a file gives |
| ImportParser.CollectImports | src/delphi.ts:55-64 | the `while` loop pushes exactly the records of all matches, in order, starting from `lastIndex` 0 |
| ImportParser.ParseImports | src/delphi.ts:53-65 | `parseImports(code)` returns the records of the pattern's matches in `code` |
| ImportParserProofs.NoClauseAt | src/delphi.ts:54 | where no `as` or `exposing` keyword follows the blanks, neither clause matches |
| ImportParserProofs.NoAsBeforeExposing | src/delphi.ts:54 | an `as` clause is never read where ` e` follows |
| ImportParserProofs.ListEndAt | src/delphi.ts:54 | a list followed by a character that cannot continue it ends exactly there |
| ImportParserProofs.ExposingUnclosed | src/delphi.ts:54 | an exposing list followed by a character other than `)` that cannot continue it is not an exposing clause |
| ImportParserProofs.ExposingEmpty | src/delphi.ts:54 | a parenthesis that is not followed at once by an entry character opens no exposing clause |
| ImportParserProofs.NoSpaceAfterName | src/delphi.ts:54 | a module name followed by a character that is not white space matches nothing |
| ImportParserProofs.FailedExposingAfterName | src/delphi.ts:54 | after the name, an exposing clause that fails rejects the line rather than leaving the line to end there |
| ImportParserProofs.ExecLeftmost | src/delphi.ts:58 | `exec` is leftmost: it finds a match no later than any line start where the pattern matches |
| ImportParserProofs.ExecSkips | src/delphi.ts:58 | `exec` from `i` and from `j` agree when the pattern cannot start between them |
| ImportParserProofs.ScanMatches | src/delphi.ts:58 | every match the loop reports is a real match at a line start, at or after where the loop began |
| ImportParserProofs.ScanOrdered | src/delphi.ts:58 | the reported matches are in order of appearance and do not overlap |
| ImportParserProofs.ScanCovers | src/delphi.ts:58 | every line start where the pattern matches lies inside a reported match |
| ImportParserProofs.ExecAfterLine | src/delphi.ts:58 | after a line terminator, `exec` finds in the combined text what it finds in the following text alone, shifted |
| ImportParserProofs.ScanAfterLine | src/delphi.ts:58 | after a line terminator, the loop reports the matches of the following text alone, shifted |
| ImportParserProofs.ImportsOfShifted | src/delphi.ts:62 | the records do not depend on where the matches lie |
| ImportParserProofs.ImportsAfterLine | src/delphi.ts:53-65 | the records of the text after a line terminator are the records of that text parsed alone |
| ImportParserProofs.ScanSkipLine | src/delphi.ts:58-63 | a first line the pattern does not match gives no record |
| ImportParserProofs.ScanTakeLine | src/delphi.ts:58-63 | a first line the pattern matches up to its end gives its record, followed by the records of the rest |
| ImportParserProofs.ImportsTakeLine | src/delphi.ts:53-65 | a first declaration the pattern matches up to a line feed gives its record, followed by the records of the text after the line feed |
| Declarations.BlankRun | src/delphi.ts:54 | `\s+` over a written blank run that no white space follows stops where the run ends |
| Declarations.WordRun | src/delphi.ts:54 | `(\w+)` over a written word that no word character follows captures that word |
| Declarations.ListInParentheses | src/delphi.ts:54 | a valid list written between `(` and `)` is read by the greedy list part up to the `)` |
| Declarations.AsClauseSpans | src/delphi.ts:54 | `\s+as\s+(\w+)` succeeds with the alias that lies between the ends of its three runs |
| Declarations.NoAsClauseBefore | src/delphi.ts:54 | no `as` clause starts where the first non-blank character is the `e` of `exposing` |
| Declarations.ExposingClauseOpens | src/delphi.ts:54 | blanks, then `exposing`, then a parenthesised list make an exposing clause with that list |
| Declarations.ParenthesisedListSpans | src/delphi.ts:54 | `\s+\((...)\)` succeeds with the text between `(` and the `)` where the greedy list ends |
| Declarations.RemainderAtLineEnd | src/delphi.ts:54 | with no exposing clause, the match ends at a line end that follows at once |
| Declarations.AfterNameWithAlias | src/delphi.ts:54 | after the name, a matching `as` clause and a matching remainder give the whole match |
| Declarations.AfterNameWithoutAlias | src/delphi.ts:54 | after the name, with no `as` clause, the remainder is tried at once and gives the whole match |
| Declarations.MatchFromName | src/delphi.ts:54 | `^import\s+(\w+)` followed by a matching rest gives the whole match, with that name |
| Declarations.ParenthesisedRead | src/delphi.ts:54 | any blanks, then `(`, a list and `)`, are read as that list, ending after the `)` |
| Declarations.ExposingRead | src/delphi.ts:54 | any blanks, `exposing`, any blanks and a parenthesised list are read as that list, ending after the `)` |
| Declarations.ExposingWritten | src/delphi.ts:54 | a written exposing clause, with any white space, is read back as its list |
| Declarations.RemainderWritten | src/delphi.ts:54 | a written exposing clause, or none, followed by a line end is read back as itself, ending there; with none, the text after the line end must not begin, after white space, with `as` or `exposing` |
| Declarations.AliasRead | src/delphi.ts:54 | any blanks, `as`, any blanks and a word alias not followed by a word character are read as that alias |
| Declarations.AliasWritten | src/delphi.ts:54 | a written `as` clause, with any white space, is read back as its alias |
| Declarations.AfterNameWritten | src/delphi.ts:54 | a written alias and exposing clause, each optional, followed by a line end are read back as themselves; without an exposing clause, the text after the line end must not begin, after white space, with `as` or `exposing` |
| Declarations.NameRead | src/delphi.ts:54 | after `import`, `\s+` ends where a written module name starts, and `(\w+)` captures exactly that name |
| Declarations.MatchWritten | src/delphi.ts:54 | a declaration written with any white space is matched as itself, up to the line end that follows it; without an exposing list, the text after that line end must not begin, after white space, with `as` or `exposing` |
| Declarations.MatchRenderIn | src/delphi.ts:54 | round trip: any declaration the pattern can capture, written with any non-empty white space (line terminators included) where the pattern wants some and followed by a line end, is read back as that declaration, ending where it ends; when it has no exposing list, the text after the line end must not begin, after white space, with `as` or `exposing` (a sufficient condition, since `\s+` would carry such a clause over) |
| Declarations.MatchRender | src/delphi.ts:54 | the canonical one-line text of any declaration the pattern can capture, followed by a line end, is read back as that declaration; without an exposing list, the text after the line end must not begin, after white space, with `as` or `exposing` |
| Declarations.RenderEnd | src/delphi.ts:54 | a written declaration is non-empty and does not end with a line terminator |
| Declarations.DeclarationMatched | src/delphi.ts:54 | a written declaration followed by a line feed and a file is matched up to that line feed; without an exposing list, the file must not begin, after white space, with `as` or `exposing` |
| Declarations.DeclarationThenFile | src/delphi.ts:53-65 | a written declaration, however its white space spreads it over lines, followed by a line feed and a file gives its record, then the file's records; without an exposing list, the file must not begin, after white space, with `as` or `exposing` |
| Declarations.EntryCharIsNotSpace | src/delphi.ts:54 | no character of `[\w.]` is white space |
| Declarations.TrimPiece | src/delphi.ts:62 | `trim` of white space followed by an entry gives the entry |
| Declarations.JoinedPieces | src/delphi.ts:62 | the pieces that `split(',')` cuts a written list into, joined with commas, give the list back |
| Declarations.PiecesWithoutComma | src/delphi.ts:62 | no piece of a written list holds a comma |
| Declarations.PieceAt | src/delphi.ts:62 | each piece is the white space before an entry, then the entry |
| Declarations.TrimmedPiece | src/delphi.ts:62 | each trimmed piece is its entry |
| Declarations.PiecesTrimmed | src/delphi.ts:62 | trimming every piece gives the entries, in order |
| Declarations.ExposedEntries | src/delphi.ts:62 | `split(',')` and then `trim` on entries written with a comma and any white space between each two gives exactly the entries back |
| Declarations.ListedIsList | src/delphi.ts:54 | entries written with commas and any white space form a list the pattern captures |
| Declarations.ListCons | src/delphi.ts:54 | an entry, a comma, white space and a list form a list |
| Declarations.ExposingEntriesThenFile | src/delphi.ts:53-65 | a declaration exposing entries written with commas and any white space gives the record with the alias, or else the module name, and exactly those entries, then the file's records |
| MatchSoundness.BlankSlice | src/delphi.ts:54 | the run a greedy `\s+` takes is non-empty white space |
| MatchSoundness.SliceJoin | src/delphi.ts:54 | two adjacent stretches of a text make up the stretch spanning both |
| MatchSoundness.ExposingSpans | src/delphi.ts:54 | a successful `\s+exposing\s+\((...)\)` has the keyword after its first blank run, `(` after its second, and the captured list between that `(` and the `)` it ends with |
| MatchSoundness.ExposingText | src/delphi.ts:54 | the text of such a clause is its first blanks, `exposing`, its second blanks and the list in parentheses |
| MatchSoundness.ExposingShape | src/delphi.ts:54 | a successful exposing clause is written as blanks, `exposing`, blanks and its list in parentheses |
| MatchSoundness.AliasSpans | src/delphi.ts:54 | a successful `\s+as\s+(\w+)` has the keyword after its first blank run and the captured alias after its second |
| MatchSoundness.AliasShape | src/delphi.ts:54 | a successful `as` clause is written as blanks, `as`, blanks and its alias |
| MatchSoundness.RemainderShape | src/delphi.ts:54 | the end of the pattern read an exposing clause up to the end of the match exactly when it captured a list, and nothing otherwise |
| MatchSoundness.AfterNameShape | src/delphi.ts:54 | after the module name, the pattern read an `as` clause exactly when it captured an alias, and the rest of the pattern after it |
| MatchSoundness.HeadShape | src/delphi.ts:54 | a match starts with `import`, blanks and the captured module name |
| MatchSoundness.Assemble | src/delphi.ts:54 | a match cut at the ends of its parts is the declaration written with the white space found there |
| MatchSoundness.MatchSound | src/delphi.ts:54 | parse then render: the text of every match is exactly what it captured, written with some non-empty white space where the pattern wants some; an `as` clause is present exactly when an alias was captured, and an exposing clause exactly when a list was |
| LineShapes.RejectUnclosed | src/delphi.ts:54 | `import M exposing (` followed by a list and then a character other than `)` that cannot continue the list matches nothing |
| LineShapes.RejectEmptyList | src/delphi.ts:54 | `import M exposing (` followed by a character that cannot start an entry matches nothing |
| LineShapes.RejectDotted | src/delphi.ts:54 | a module name followed by a character that is neither a word character nor white space matches nothing |
| LineShapes.NoClauseBeforeImport | src/delphi.ts:54 | a blank line followed by `import` continues no clause of the line before |
| LineShapes.AcceptExposing | src/delphi.ts:54 | `import M exposing (list)` on its own line matches that whole line, with that name and that list |
| LineShapes.AcceptBare | src/delphi.ts:54 | `import M` followed by a blank line and another declaration matches exactly `import M` |
| LineShapes.SingleEntryRecord | src/delphi.ts:62 | an exposing list of one unpadded entry without a comma gives the record with that single entry and the module name as its alias |
| LineShapes.TakeExposing | src/delphi.ts:53-65 | a line exposing one entry gives its record ahead of the rest |
| LineShapes.TakeBare | src/delphi.ts:53-65 | a bare line, followed by a blank line and a declaration, gives its record ahead of the rest |
| LineShapes.SkipUnclosed | src/delphi.ts:53-65 | a line whose list is followed by a character other than `)` gives no record |
| LineShapes.SkipEmptyList | src/delphi.ts:53-65 | a line with a blank after `(` gives no record |
| LineShapes.SkipDotted | src/delphi.ts:53-65 | a line with a dotted module name gives no record |
| LineShapes.SkipBlank | src/delphi.ts:53-65 | a blank line gives no record |
| LineShapes.FirstLine | src/delphi.ts:53-65 | the first line of a well-formed text gives its record ahead of the records of the remaining lines |
| LineShapes.ParseRendered | src/delphi.ts:53-65 | parsing well-formed lines followed by any file gives each line's record in order, followed by the file's own records |
| Prelude.UnlinesRendered | src/delphi.ts:135-149 | the template literal, with a line feed after each line, is the text of its line shapes |
| Prelude.PreludeText | src/delphi.ts:135-149 | the template literal: the thirteen lines of the constant `PreludeLines`, each followed by a line feed; `Prelude.PreludeThenFile` states what parsing it followed by a file gives |
| Prelude.PreludeImports | src/delphi.ts:136-148 | the five records the prelude gives: `Basics` exposing `..`, `String` exposing `String`, `Char` exposing `Char`, `Tuple` and `Debug`; `Prelude.PreludeRecords` and `Prelude.PreludeThenFile` state that parsing the prelude gives exactly these |
| Prelude.PreludeLinesShaped | src/delphi.ts:136-148 | each of the thirteen prelude lines has the shape listed for it |
| Prelude.PreludeShapesOk | src/delphi.ts:136-148 | the prelude is well formed, and each bare line in it is followed by a blank line and a declaration |
| Prelude.PreludeRecords | src/delphi.ts:136-148 | the prelude's lines give exactly `Basics` exposing `..`, then `String`, `Char`, `Tuple` and `Debug` |
| Prelude.PreludeThenFile | src/delphi.ts:135-151 | parsing the prelude followed by any file gives the prelude's five records followed by the file's own records |
| Prelude.PreludeAlone | src/delphi.ts:135-148 | parsing the prelude alone gives exactly its five records |
| QueryClassifier.ClassifyQuery | src/delphi.ts:89-101 | a query is unqualified exactly when it has no dot, and is then the name itself; otherwise the qualifier, a dot and a dot-free name make up the query |
| QueryClassifier.ClassifyQualified | src/delphi.ts:89-97 | inverse of `QueryText`: any qualifier, a dot and a dot-free name are classified back into that qualifier and that name |
| QueryClassifier.ClassifyLeadingDot | src/delphi.ts:94-96 | `.map` has the empty qualifier |
| QueryClassifier.ClassifyTrailingDot | src/delphi.ts:94-96 | `List.` has the empty name |
| DocSearch.SearchByModuleName | src/delphi.ts:103-120 | every result has the full name `module.value`, a name starting with the query's name, and the fixed link |
| DocSearch.ResultFor | src/delphi.ts:110-118 | the result object for one value; `DocSearch.SearchMembership` states that the results are exactly these objects for the matching values |
| DocSearch.ModuleResults | src/delphi.ts:106-118 | one module's contribution to the `flatMap`; `DocSearch.SearchWholeModule` states that with an empty name it lists all the module's values in order, and `DocSearch.SearchMembership` which values it keeps |
| DocSearch.SearchMembership | src/delphi.ts:103-120 | a result is found if and only if it is the result for a value, with the wanted prefix, of a module of that name |
| DocSearch.SearchAppend | src/delphi.ts:103-120 | searching documentation from two packages gives the first package's results, then the second's |
| DocSearch.SearchUnknownModule | src/delphi.ts:104-105 | a module name that is not documented gives no results |
| DocSearch.SearchWholeModule | src/delphi.ts:107-118 | with an empty name, a module's search lists all its values, in order |
| Resolver.FindByAlias | src/delphi.ts:167 | `find` gives nothing exactly when no import has the alias; otherwise it gives the first import that has it |
| Resolver.ExposesName | src/delphi.ts:175 | the `filter` test of the unqualified branch; `Resolver.ResolveUnqualifiedOne` states that an import contributes exactly when it passes it, and never without a list |
| Resolver.ModulesToSearch | src/delphi.ts:173-176 | the module names the unqualified branch searches; `Resolver.ResolveUnqualifiedAppend` states that they come in import order and `Resolver.ResolveUnqualifiedMembership` which results they give |
| Resolver.Resolve | src/delphi.ts:162-180 | every result names a value that starts with the query's name, and carries the fixed link |
| Resolver.Run | src/delphi.ts:151-180 | the program's result is the resolution of the classified query against the imports of the prelude followed by the file |
| Resolver.FindFirst | src/delphi.ts:167 | when imports with other aliases come before an import with the alias, `find` gives that import |
| Resolver.ResolveFirstAlias | src/delphi.ts:166-169 | a qualified query searches the true module name of the first import whose alias is the qualifier |
| Resolver.ResolveUnknownAlias | src/delphi.ts:166-171 | a non-empty qualifier that is no import's alias gives the empty result, not an error |
| Resolver.ResolveEmptyQualifier | src/delphi.ts:166-180 | a query with an empty qualifier, such as `.map`, resolves like the unqualified name |
| Resolver.ResolveUnqualifiedAppend | src/delphi.ts:173-179 | unqualified results come import by import, in import order |
| Resolver.ResolveUnqualifiedOne | src/delphi.ts:173-179 | one import contributes the search of its module exactly when it exposes `..` or an entry that starts with the name; an import without a list never contributes |
| Resolver.ResolveUnqualifiedMembership | src/delphi.ts:173-179 | a result of an unqualified query is a result of the module of some import that exposes the name, and every such result is found |
| Resolver.NoListAlias | src/delphi.ts:137 | none of the prelude's records carries the alias `List` |
| Resolver.PreludeHasNoListAlias | src/delphi.ts:137 | with only the prelude, `List.name` finds nothing, because the prelude's `List` line gives no record |
| Resolver.StringAliasRecord | src/delphi.ts:140 | among the prelude's records, `String` is the first with the alias `String`, so a `String.` query searches module `String` |
| Resolver.PreludeStringAlias | src/delphi.ts:140 | with only the prelude, `String.name` searches the `String` module |

## Left out

- Reading the Elm file and `elm.json` from disk, `process.cwd()`, `process.argv`, `process.env.appdata` and the package folder layout. The file's text, the query and the loaded documentation are parameters of `Resolver.Run`.
- `getAllDependenciesFromElmJson` and `loadDocsForDependencies`. They parse JSON read from disk. Their result, the documentation of all dependencies in load order, is the parameter `docs`; `DocSearch.SearchAppend` states how documentation from several packages combines.
- `errorQuit` and `process.exit`. The checks for missing arguments and a missing `elm.json` happen before or around the modelled pipeline. The `errorQuit` branches in `classifyQuery` and in the resolution block cannot be taken, because `split` always returns at least one piece (`Text.Split`, `QueryClassifier.ClassifyQuery`).
- `JSON.stringify` and `console.log` of the result. The model returns the result sequence.
- `getDocForModule`. Nothing calls it.
- How the polyfill is installed, by assigning to `Array.prototype.flatMap`. Only its behaviour is modelled (`Seqs.FlatMap`).
- The general regular-expression engine. Only this one pattern is modelled, as a recognizer that makes the engine's choices. `lastIndex` is a parameter of `ImportParser.Exec`, not a field of a regex object.
- Lone surrogates. A JavaScript string may hold a surrogate code unit that is not half of a pair; a Dafny `char` cannot be one. Without the `u` flag, `\w` is ASCII only, and `\s` and `trim` are modelled with the JavaScript white-space and line-terminator sets.
- LineShapes.ParseRendered: holds only for texts built from the six line shapes the prelude uses, where each bare declaration is followed by a blank line and another declaration. Any other text is parsed by `ImportParser.Imports` itself.
- Resolver.Resolve: its own contract states only what every result satisfies. Which results occur is stated by the lemmas beside it (`ResolveFirstAlias`, `ResolveUnknownAlias`, `ResolveEmptyQualifier`, `ResolveUnqualifiedOne`, `ResolveUnqualifiedAppend`, `ResolveUnqualifiedMembership`).
