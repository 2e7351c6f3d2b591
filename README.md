# BookBuilder core, modelled in Dafny

BookBuilder is the toolchain that turns the Markdown sources of the *Atomic
Kotlin* book into checked text, per-atom files and web pages. This project
models the line- and string-processing logic under that toolchain and proves
what it promises. It has three parts.

- **The Markdown validation framework** (`book_builder/validate.py`).
  - `Validate` models the per-file error buffer (`MarkdownFile`), the
    facts derived from a code listing's slugline (`CodeListing`), the
    append-only exclusion files (`Data`, `Exclusions`) and the editor's
    list of files to open.
  - `Validators` models fourteen validators. Each is a function from a
    file's lines or listings to the calls it makes: reports to the buffer
    and entries in an exclusion file. A method makes those calls on the
    objects, and lemmas show what a second run over the updated
    exclusion file reports.
- **Filename and title transforms and text utilities.**
  - `Filenames` holds the replacement chains behind every
    `create_markdown_filename` variant.
  - `BookUtil`, `KotlinUtil`, `KotlinEpub`, `Disassemble` and
    `RenumberAtoms` model the numbered names, the chapter maps and the
    text written when a combined book is split up.
  - `Chapters` is the chapter map those variants share.
  - `Zubtools` is the checkbox remover.
  - `BookUtil` also holds the text utilities: `strip_chapter`,
    `strip_review_notes`, `find_end`, `replace_code_in_text` and
    `adjust_lines`.
- **Cursor-driven rewriters.** These are classes that walk a list of
  lines with an index and build an output list:
  - `BookFix` (`degap`);
  - `FixExercisesModel` and `FixCodeModel`, the residual Scala-to-Kotlin
    fixers;
  - `SolutionExtractor` (the exercise/solution parser);
  - `HtmlGenerator` (the circular previous/next link table and the
    sample-end truncation).

Each of these is proved against a specification function, and that
function's properties are proved as lemmas.

Shared modules:

- `Results` holds `Option` and `Result`. A Python exception
  (`IndexError`, `ValueError`, a failed `assert`) is an `Err` carrying
  its name.
- `Text` holds Python's `str` methods over `seq<char>`.
- `Numerals` holds `%0Nd`, `str(int)` and `int(str)`.
- `Replacements` and `Slices` hold replacement chains and
  Python-style slicing.

Files and directories are in-memory strings and sequences. Configuration
values that the shipped `config.py` does not define are parameters:

- the exclusion-entry break marker `msgbreak`;
- `start_comment`;
- `exercise_header`;
- the copyright notice.

## Model

| member | source | states |
|---|---|---|
| Validate.Editor.constructor | book_builder/validate.py:22-24 | the global editor starts with no data files and no Markdown positions |
| Validate.ProperSluglineIff | book_builder/validate.py:92-116 | the last-dot scan holds exactly when `^// .+?\.[a-z]+$` matches the slug |
| Validate.DirectorySpec | book_builder/validate.py:117-118 | the directory is the text between "// " and the first `/`, and holds no `/` |
| Validate.PackageLine | book_builder/validate.py:98-124 | the first line starting "package ", and no earlier line starts so |
| Validate.PackageClean | book_builder/validate.py:123-126 | the package holds no `;` and no whitespace, and is "" without a package line |
| Validate.PackageOfLine | book_builder/validate.py:98-126 | a first `package p;` line gives the package p |
| Validate.NewListing | book_builder/validate.py:110-126 | IndexError for code without lines, ValueError when the slug is not a line of the file; otherwise every field agrees with the code, the proper-slugline flag is the regex match, and the starting line is the first index of the slug |
| Validate.Listings | book_builder/validate.py:52-53 | one listing per (marker, code) pair, in order; the first failing pair's error is raised |
| Validate.ListingsWellFormed | book_builder/validate.py:52-126 | every listing of a file is well formed |
| Validate.Opened | book_builder/validate.py:46-53 | a file without lines raises IndexError; otherwise the title is its first line and the listings are those of its pairs |
| Validate.Indented | book_builder/validate.py:67 | one message line per report |
| Validate.IndentedAt | book_builder/validate.py:67 | each message line is the message behind four spaces |
| Validate.LogAllText | book_builder/validate.py:62-70 | after any sequence of errors the buffer holds the name once, before the first message, then every message on its own indented line; the title flag is set once anything was reported |
| Validate.LogAllKeepsLine | book_builder/validate.py:68-69 | without a truthy line number the stored line number stays (0 and None leave it alone) |
| Validate.LogAllLastLine | book_builder/validate.py:68-69 | otherwise it is the last truthy line number reported |
| Validate.FreshLogLines | book_builder/validate.py:62-70 | read back as lines, a fresh file's buffer is its name, then one indented line per message |
| Validate.FreshLogText | book_builder/validate.py:62-70 | a fresh buffer ends up as the name line followed by the message lines |
| Validate.EditTargetLine | book_builder/validate.py:80 | the editor position is the path, a colon, and the one-based line number |
| Validate.MarkdownFile.constructor | book_builder/validate.py:43-53 | the file's lines, title and listings are those read from its text, every listing is well formed, and the error state is untitled, empty, with no line number |
| Validate.MarkdownFile.Error | book_builder/validate.py:62-70 | the name goes in before the first message only, the message is appended behind four spaces with a break, a truthy line number replaces the stored one, and the whole buffer is returned |
| Validate.MarkdownFile.ErrorEach | book_builder/validate.py:62-70 | a validator's reports passed to `error` in order leave the state the logging specification gives |
| Validate.MarkdownFile.Shown | book_builder/validate.py:72-74 | the buffer is printed exactly when it is not empty |
| Validate.MarkdownFile.Edit | book_builder/validate.py:76-81 | a file with errors queues `path:line+1` (or the path when the line number is falsy); a file without errors queues nothing |
| Validate.Registry.constructor | book_builder/validate.py:193 | `Data.names` starts empty |
| Validate.NoticeNeverFires | book_builder/validate.py:196-206 | while every entry is truthy (the string "False" is), the "Needs Editing!" notice cannot fire |
| Validate.StrippedLinesContained | book_builder/validate.py:207-218 | every stripped line of the data is also found by `in` |
| Validate.ContainmentIsNotMembership | book_builder/validate.py:207-218 | the converse fails: a proper prefix of a line is "in" the data but is not one of its stripped lines |
| Validate.ExclusionEntryLines | book_builder/validate.py:211-214 | `Data.error` appends exactly three lines: "name:", the indented message, the break marker |
| Validate.Data.constructor | book_builder/validate.py:195-207 | a missing file is created empty; a new name is entered as "False"; the notice and the True entry would follow only when it fires, and it never fires while all entries are truthy |
| Validate.Data.Error | book_builder/validate.py:209-215 | the stored text gains the three-line entry and the file is queued for the editor |
| Validators.FlattenMember | book_builder/validate.py:239-242 | a validator that loops over items makes a call exactly when some item makes it |
| Validators.FlattenEmpty | book_builder/validate.py:239-242 | when no item makes a call the validator makes none |
| Validators.FlattenWithMember | book_builder/validate.py:431-438 | the same for loops whose calls also depend on the exclusion file's text |
| Validators.FlattenWithEmpty | book_builder/validate.py:431-438 | the same, no call from any item means no call at all |
| Validators.Apply | book_builder/validate.py:62-70 | making a validator's calls in order leaves the Markdown buffer and the exclusion file as the specification `Run` says; the editor gains the exclusion file's path only when something was excluded, and the Markdown list is unchanged |
| Validators.RunBuffer | book_builder/validate.py:62-70 | on the Markdown side a list of calls is exactly its reports logged in order |
| Validators.EntryContains | book_builder/validate.py:209-215 | an exclusion entry holds the message it records, so later `in` tests find it |
| Validators.LoggedContains | book_builder/validate.py:62-70 | after `error` the buffer holds the message just logged |
| Validators.RunRecords | book_builder/validate.py:209-218 | the exclusion file only grows, and afterwards contains every excluded message and every report whose buffer was excluded |
| Validators.ContainsExtended | book_builder/validate.py:217-218 | substring membership survives appending to the stored text |
| Validators.NoTabs | book_builder/validate.py:236-242 | "Tab found!" is reported at line n exactly when line n holds a tab, and no report is made twice |
| Validators.TagNoGapSpec | book_builder/validate.py:256-264 | a listing is reported exactly when its fence marker holds a space, at the line before its slug |
| Validators.FilenamesAndTitles | book_builder/validate.py:267-276 | front matter is never reported; otherwise a report exactly when the name after its four-character prefix differs from the filename the title makes, and another exactly when the title says " and " |
| Validators.NumberedFilePasses | book_builder/validate.py:267-276 | a file named by `create_numbered_markdown_filename` from its own title passes unless the title says " and " |
| Validators.WideLines | book_builder/validate.py:309-313 | a listing line is reported exactly when its right-stripped length exceeds the code width |
| Validators.CodeListingLineWidthsSpec | book_builder/validate.py:303-313 | a report for every over-wide line of a listing whose slug opens with "// ", and for nothing else |
| Validators.HangingExclusive | book_builder/validate.py:381-387 | no line matches both the hanging-emdash and the hanging-hyphen pattern |
| Validators.HangingHyphensSpec | book_builder/validate.py:375-387 | a report is made exactly for each line ending in a hanging emdash or hyphen, with its right-stripped text and without a line number; no line gives more than one report, so there are at most as many reports as lines |
| Validators.HangingCount | book_builder/validate.py:381-387 | the number of reports never exceeds the number of lines |
| Validators.ExtraBlanks | book_builder/validate.py:661-666 | the first pass reports line n exactly when it is blank and is the last line or the next line is blank too |
| Validators.CrowdedFences | book_builder/validate.py:667-672 | the second pass reports line n exactly when it opens a fence, is neither first nor last, and neither neighbour is blank |
| Validators.ExtraBlanksIff | book_builder/validate.py:661-666 | the first pass on the whole file reports exactly the extra blank lines and no fence |
| Validators.CrowdedFencesIff | book_builder/validate.py:667-672 | the second pass on the whole file reports exactly the crowded fences and no blank line |
| Validators.CheckBlankLinesSpec | book_builder/validate.py:654-672 | both rules of `CheckBlankLines`, each as an if-and-only-if per line |
| Validators.ExampleSluglinesRaises | book_builder/validate.py:320-331 | the loop raises IndexError exactly when some listing opens with the comment start and a space but has nothing after its first word |
| Validators.MissingHoldsSlug | book_builder/validate.py:330-331 | the "Missing directory" message holds the slug, so excluding it makes later `in` tests pass |
| Validators.ExampleSluglinesAgain | book_builder/validate.py:320-331 | once every excluded message is in the exclusion text, a new run excludes nothing |
| Validators.ExampleSluglinesOnce | book_builder/validate.py:316-331 | after its calls are made, the next run only repeats the missing-space reports |
| Validators.HasFun | book_builder/validate.py:345-347 | true exactly when some line, stripped, starts with "fun " |
| Validators.WithoutSlugline | book_builder/validate.py:339-348 | the first listing without a proper slugline, not excluded, holding a `fun ` line; None exactly when there is none |
| Validators.CompleteHoldsSlug | book_builder/validate.py:350-355 | the report's message holds the listing's slug |
| Validators.CompleteExamplesProgress | book_builder/validate.py:334-355 | after the calls, the next run passes the reported listing and every one before it |
| Validators.PrintlnOutputOnce | book_builder/validate.py:425-438 | after the calls, running the validator again on the updated exclusion file reports nothing |
| Validators.RunEnd | book_builder/validate.py:446-451 | the first index at or after n whose line holds no `//` (or the end) |
| Validators.ParseCommentBlock | book_builder/validate.py:446-451 | the loop stops at `RunEnd` and its block is the comment texts of the lines it passed, in order |
| Validators.ParseBlocksOfComments | book_builder/validate.py:453-464 | the blocks of the lines after the slugline, per the specification `Blocks` |
| Validators.BlocksAreRuns | book_builder/validate.py:453-464 | every block is the text of a maximal run of `//` lines |
| Validators.RunsAreBlocks | book_builder/validate.py:453-464 | the text of every maximal run of `//` lines is a block |
| Validators.EmptyCommentRaises | book_builder/validate.py:466-474 | as written, a listing whose only comment is an empty `//` line raises IndexError |
| Validators.FirstUncapped | book_builder/validate.py:469-473 | the first block whose stripped text starts with a lower-case letter; None exactly when there is none |
| Validators.FindUncapitalized | book_builder/validate.py:466-474 | None exactly when no block of any listing is uncapitalized; otherwise a text starting with a lower-case letter |
| Validators.FindUncapitalizedFirst | book_builder/validate.py:466-474 | the text found is the first uncapitalized block of the first listing that has one, and every listing before it has none |
| Validators.UncappedAgrees | book_builder/validate.py:469-473 | whenever the code as written returns, it returns what the corrected search returns |
| Validators.FindAgrees | book_builder/validate.py:466-474 | the same over all listings of a file |
| Validators.CapitalizedCommentsAgree | book_builder/validate.py:476-480 | whenever the validator as written does not raise, it makes the calls the corrected one makes |
| Validators.CapitalizedCommentsOnce | book_builder/validate.py:476-480 | once the first uncapitalized comment is excluded, the file passes on every later run |
| Validators.FirstOddIndent | book_builder/validate.py:494-496 | the first line with an odd indent that is not a ` *` continuation; None exactly when there is none |
| Validators.BadPairs | book_builder/validate.py:498-508 | the failing pairs, reported as index + 2, in increasing order, exactly those whose test fails |
| Validators.ProperSluglineNotIndented | book_builder/validate.py:92 | a proper slugline opens with `/`, so its indent is zero |
| Validators.BadPairReported | book_builder/validate.py:498-508 | a reported pair is a step more than one level deeper |
| Validators.NoBadPairs | book_builder/validate.py:498-508 | with nothing reported, every step deepens by at most one level |
| Validators.MessageNamesSlug | book_builder/validate.py:487-509 | with an unindented first line every message opens with the slug and the first-line message never occurs |
| Validators.InconsistentSpec | book_builder/validate.py:487-509 | a listing fails exactly when it has a proper slugline and an odd indent outside ` *` lines or a step more than one level deeper; dedents pass; messages open with the slug |
| Validators.FirstInconsistent | book_builder/validate.py:511-516 | the position of the first inconsistent listing, every one before it consistent |
| Validators.EntryHasNoBreak | book_builder/validate.py:682-686 | the line a proper slugline contributes holds no line break |
| Validators.RecordedNoBreaks | book_builder/validate.py:682-686 | well-formed listings record lines without breaks |
| Validators.RecordedStep | book_builder/validate.py:684-686 | recording one more listing appends exactly its entry |
| Validators.Basenames | book_builder/validate.py:694 | the basename of every recorded path, position by position |
| Validators.BasenameSpec | book_builder/validate.py:694 | a basename holds no `/`, and a name without `/` is its own basename |
| Validators.CountPositive | book_builder/validate.py:690 | `count` is positive exactly when the value occurs |
| Validators.DuplicatesIff | book_builder/validate.py:690 | a value is reported exactly when it occurs at two different positions |
| Validators.ReadBack | book_builder/validate.py:686-689 | lines without breaks, each written with a break, read back as the same lines |
| Validators.ExampleNames.constructor | book_builder/validate.py:679-680 | the shared file starts empty |
| Validators.ExampleNames.Validate | book_builder/validate.py:682-686 | appends `slug[3:]` for each proper slugline of the file's listings, in order |
| Validators.ExampleNames.PostProcess | book_builder/validate.py:688-698 | the paths and the basenames that occur more than once among what was recorded |
| Validators.PackageAndDirectoryNamesOnce | book_builder/validate.py:701-714 | after the calls, running the validator again on the updated exclusion file reports nothing |
| Validators.SetMinusEmpty | book_builder/validate.py:731 | the set difference is empty exactly when the directories are all excluded |
| Validators.DirectoryNameConsistency | book_builder/validate.py:717-738 | "multiple" exactly when more than one non-excluded directory remains; "inconsistent" exactly when some directory is not name-excluded and the directory the file name calls for is missing, and then it names that directory |
| Validators.SingleCalculatedDirPasses | book_builder/validate.py:724-738 | listings that all name the directory the file name calls for pass |
| BookUtil.ReportLayout | book_builder/util.py:28-32 | after some messages the reporter holds the file name on its own line followed by each message behind four spaces; it is empty before the first |
| BookUtil.IndentedAppend | book_builder/util.py:32 | each call appends four spaces and the message |
| BookUtil.ErrorReporter.constructor | book_builder/util.py:23-26 | a new reporter is untitled and empty |
| BookUtil.ErrorReporter.Call | book_builder/util.py:28-32 | a call records one more message, the name going in only before the first |
| BookUtil.ErrorReporter.Show | book_builder/util.py:34-36 | prints the whole buffer exactly when a message was received |
| BookUtil.ErrorReporter.Edit | book_builder/util.py:38-40 | opens the file exactly when a message was received |
| BookUtil.CreateMarkdownFilename | book_builder/util.py:44-57 | the filename is the heading's safe name followed by ".md" |
| BookUtil.NumberedFilenameParts | book_builder/util.py:60-61 | at least three digits that read back as n, then `_` and the plain filename |
| BookUtil.NumberedFilenameWidth | book_builder/util.py:60-61 | below 1000 the prefix is exactly three digits |
| BookUtil.RStripAll | book_builder/util.py:104 | every line right-stripped, one per line |
| BookUtil.StripChapterClean | book_builder/util.py:101-106 | the cleaned chapter has no surrounding whitespace and no line ending in whitespace, and is empty exactly when the chapter is blank |
| BookUtil.TrimmedLinesJoin | book_builder/util.py:104-106 | joining the right-trimmed lines of a stripped text needs no further strip |
| BookUtil.StripChapterIdempotent | book_builder/util.py:101-106 | cleaning twice is cleaning once |
| BookUtil.Mistakes | book_builder/util.py:111-113 | a line is listed exactly when it is a checkbox naming neither "Ready for Review" nor "Tech Checked"; the list is empty exactly when no line is such a checkbox |
| BookUtil.DropCheckboxes | book_builder/util.py:114 | the surviving lines are right-stripped and none starts "+ ["; without checkboxes every line survives |
| BookUtil.InNotesStep | book_builder/util.py:117-121 | the `in_notes` flag after a line is set by a "+ Notes:" line and cleared by an empty line |
| BookUtil.DropNotes | book_builder/util.py:115-123 | the loop keeps exactly the lines outside notes blocks, each followed by a break |
| BookUtil.RemoveSpans | book_builder/util.py:124 | removing spans never lengthens the text |
| BookUtil.RemoveSpansUnclosed | book_builder/util.py:124 | text with no closing "}}" is left alone |
| BookUtil.RemoveSpansFront | book_builder/util.py:124 | a `{{...}}` span at the front is removed through its first "}}" |
| BookUtil.RemoveSpansOne | book_builder/util.py:124 | text before a span is kept, the span is removed, and the rest is processed |
| BookUtil.StripReviewNotes | book_builder/util.py:109-125 | fails exactly when some checkbox names neither status, reporting those lines; otherwise writes the stripped text without checkboxes, notes blocks and spans, plus a final break |
| BookUtil.ClosingFence | book_builder/util.py:233-235 | a found closing fence lies at or after the title line |
| BookUtil.ClosingFenceFirst | book_builder/util.py:233-239 | the answer is the first closing fence with no Kotlin fence before it; it fails exactly when every closing fence has a Kotlin fence before it |
| BookUtil.FindEnd | book_builder/util.py:228-239 | the loop returns what the fence search specifies |
| BookUtil.StripAll | book_builder/util.py:253 | every line stripped |
| BookUtil.TitleLineFirst | book_builder/util.py:252-253 | the title line found is the first whose strip equals the title, and none is found only when there is none |
| BookUtil.ReplaceCodeInText | book_builder/util.py:242-263 | fails on an empty listing, a title not in the text, no title line or no closing fence; otherwise returns the first title line's index and the text with lines from there up to the closing fence replaced by the listing, stripped |
| BookUtil.AdjustLinesNoNul | book_builder/util.py:293 | the result holds no NUL |
| BookUtil.AdjustLinesUnmarked | book_builder/util.py:307 | a slugline asking for no excerpt leaves the text unchanged, NUL aside |
| BookUtil.AdjustLinesFirstAndLast | book_builder/util.py:296-301 | with 1 <= N and enough lines: the first N+1 lines, the marker line, the last N lines |
| BookUtil.AdjustLinesFirstAndLastZero | book_builder/util.py:300 | `lines[-0:]` is the whole list: N = 0 repeats every line after the slug and marker |
| BookUtil.AdjustLinesFirst | book_builder/util.py:302-306 | the first N+1 lines and the ellipsis line |
| Filenames.MarkdownFilename | book_builder/util.py:44-57 | the replacement chain as written equals the one-pass reference name followed by ".md" |
| Filenames.MarkdownSteps | book_builder/util.py:47-56 | the ten single-character replacements, in the source's order, are the chain `MarkdownChain` |
| Filenames.MarkdownFilenameIsSafe | book_builder/util.py:44-57 | the filename ends in ".md" and holds no space, `&`, `?`, `+`, `/`, `-`, `(`, `)`, `` ` ``, `,` or `!` |
| Filenames.SafeNameIsSafe | book_builder/util.py:44-57 | the reference name holds none of those characters |
| Filenames.DisassembleFilename | zzz_imported_tools/Disassemble.py:62-70 | the shorter chain equals its own reference name followed by ".md" |
| Filenames.DisassembleSteps | zzz_imported_tools/Disassemble.py:64-70 | the seven single-character replacements, in the source's order, are the chain `DisassembleChain` |
| Filenames.KeepNameVersusSafeName | zzz_imported_tools/Disassemble.py:62-70 | on headings without `` ` ``, `,` or `!` the two references agree |
| Filenames.KeepNameKeeps | zzz_imported_tools/Disassemble.py:62-70 | `` ` ``, `,` and `!` survive the shorter chain and are deleted by the longer one |
| Filenames.SpaceThenConcat | book_builder/util.py:46-56 | after `": "` is gone, the rest of the chain acts on each part of a concatenation separately |
| Filenames.ChainNameCorrect | book_builder/util.py:45-56 | `": "` then space then the chain equals the chain's reference on the heading |
| Filenames.ChainFilename | book_builder/util.py:45-57 | the whole pipeline, ".md" included, equals the chain's reference followed by ".md" |
| Filenames.MarkdownChainFacts | book_builder/util.py:47-56 | the chain replaces no character it produces, leaves `_` and ".md" alone, and maps each character as the reference does |
| Filenames.MarkdownChainChars | book_builder/util.py:47-56 | the chain replaces `&`, `?`, `+`, `/`, `-`, `(`, `)`, `` ` ``, `,`, `!` in that order |
| Filenames.DisassembleChainFacts | zzz_imported_tools/Disassemble.py:64-70 | the same for the shorter chain |
| Filenames.DisassembleChainChars | zzz_imported_tools/Disassemble.py:64-70 | the shorter chain replaces `&`, `?`, `+`, `/`, `(`, `)`, `-` in that order |
| Filenames.MarkdownChainIsSafeName | book_builder/util.py:44-57 | the `create_markdown_filename` pipeline is the one-pass reference plus ".md" |
| Filenames.DisassembleChainIsKeepName | zzz_imported_tools/Disassemble.py:62-70 | the `mdfilename` pipeline is its one-pass reference plus ".md" |
| Disassemble.MdFilenameParts | zzz_imported_tools/Disassemble.py:61-71 | below 100: two digits reading back as n, `_`, the heading with `` ` ``, `,` and `!` kept, and ".md" |
| Disassemble.MdFilenamePositions | zzz_imported_tools/Disassemble.py:71 | the filename determines the chapter position |
| Disassemble.DisassembleCombinedMarkdownFile | zzz_imported_tools/Disassemble.py:48-87 | chapter i of the map goes to `mdfilename(p, i)`, headed by its title unless it contains "Front", with the map's text |
| Disassemble.DisassembledNamesDistinct | zzz_imported_tools/Disassemble.py:78-83 | no two chapters are written to the same file |
| KotlinUtil.CreateMarkdownFilename | atomic_kotlin_builder/util.py:26-39 | the filename is the heading's safe name followed by ".md" |
| KotlinUtil.NumberedFilenameWidth | atomic_kotlin_builder/util.py:42-43 | below 100 the prefix is two digits reading back as n, then `_` and the plain filename |
| KotlinUtil.NumberedFilenameInjective | atomic_kotlin_builder/util.py:42-43 | equal numbered filenames have equal positions and equal safe names |
| KotlinUtil.FilenamePositions | atomic_kotlin_builder/util.py:42-43 | the numbered filename determines the chapter position |
| KotlinUtil.DisassembleCombinedMarkdownFile | atomic_kotlin_builder/util.py:62-85 | chapter i of the map goes to its numbered filename, headed by its title unless it contains "Front", with the map's text |
| KotlinUtil.DisassembledNamesDistinct | atomic_kotlin_builder/util.py:77-81 | no two chapters are written to the same file |
| KotlinEpub.CreateMarkdownFilename | atomic_kotlin_builder/epub.py:11-24 | the same replacement chain: the safe name followed by ".md" |
| KotlinEpub.SameFilenameAsUtil | atomic_kotlin_builder/epub.py:27-28 | both copies of the numbered filename agree on every heading and number |
| KotlinEpub.AtomNameOfNumbered | atomic_kotlin_builder/epub.py:40-66 | `md.name[3:-3]` of a numbered file below 100 is the heading's safe name, which is `create_markdown_filename(nm)[:-3]` |
| KotlinEpub.Contents | atomic_kotlin_builder/epub.py:42-43 | the files' contents, in order |
| KotlinEpub.AssembledJoin | atomic_kotlin_builder/epub.py:37-43 | the combined book is the contents joined by line breaks plus a final break |
| KotlinEpub.CombineMarkdownFiles | atomic_kotlin_builder/epub.py:31-47 | the loop builds the combined book and records `md.name[3:-3]` for every file, in order |
| KotlinEpub.DisassembleCombinedMarkdownFile | atomic_kotlin_builder/epub.py:50-100 | "Disassembly failed" exactly when an old name is not a new name or "Front", or the counts differ; otherwise chapter i is written to its numbered file with its stripped text plus a break |
| KotlinEpub.WrittenFileAtomName | atomic_kotlin_builder/epub.py:40-92 | round trip: a file written below position 100, combined again, is recorded under the name the next disassembly expects |
| KotlinEpub.WrittenNamesDistinct | atomic_kotlin_builder/epub.py:91-94 | no two chapters are written to the same file |
| KotlinEpub.NamesMatchExactly | atomic_kotlin_builder/epub.py:65-87 | with distinct recorded names, passing both checks means the recorded names are exactly the new names |
| Replacements.LookupFound | book_builder/util.py:47-56 | in a chain of single-character replacements, the first step for a character decides what becomes of it |
| Replacements.ReplaceAllConcat | book_builder/util.py:47-56 | single-character replacements act on each part of a concatenation separately |
| Replacements.ReplaceAllUntouched | book_builder/util.py:47-56 | text with none of the replaced characters is unchanged |
| Replacements.ReplaceAllChar | book_builder/util.py:47-56 | when no replacement text brings back a later-replaced character, a character becomes its first step's replacement |
| Chapters.Keys | atomic_kotlin_builder/util.py:70-73 | the keys of the ordered dictionary, in insertion order |
| Chapters.IndexOfKey | atomic_kotlin_builder/util.py:70-73 | the position of a key is where it sits and no earlier entry has it; absent keys give the length |
| Chapters.InKeys | atomic_kotlin_builder/util.py:70-73 | a key is present exactly when its position is inside the dictionary |
| Chapters.PutKeys | atomic_kotlin_builder/util.py:73 | assigning keeps the key order, appends a new key at the end, and keeps keys distinct |
| Chapters.PutGet | atomic_kotlin_builder/util.py:73 | after `m[k] = v`, `m[k]` is v and every other key reads what it did |
| Chapters.Names | atomic_kotlin_builder/util.py:68 | `parts[1::2]`: the odd-position parts, in order |
| Chapters.Bodies | atomic_kotlin_builder/util.py:69 | `parts[0::2]`: the even-position parts, in order |
| Chapters.BuildChapters | atomic_kotlin_builder/util.py:70-73 | the loop builds the chapter map: "Front" with the first body, then each name with its stripped body plus a break |
| Chapters.ChapterMapDistinct | atomic_kotlin_builder/util.py:70-73 | no key of the chapter map occurs twice |
| Chapters.ChapterMapKeysStep | atomic_kotlin_builder/util.py:72-73 | one loop step appends its name unless it is already a key |
| Chapters.ChapterMapKeys | atomic_kotlin_builder/util.py:70-73 | the keys are "Front" and the names, each at its first occurrence, so insertion order gives the file numbers |
| Chapters.ChapterMapStep | atomic_kotlin_builder/util.py:73 | one loop step: the name assigned reads its body, every other key reads what it did |
| Chapters.ChapterMapValue | atomic_kotlin_builder/util.py:72-73 | chapter i reads `bodies[i+1].strip() + "\n"`; a repeated name keeps the later body |
| Chapters.ChapterMapFront | atomic_kotlin_builder/util.py:71 | "Front" reads the first body unchanged unless a chapter is itself named "Front" |
| Chapters.ChapterFileLines | atomic_kotlin_builder/util.py:82-85 | a chapter whose name lacks "Front" is written as its name, a line of `=` of the same length, a blank line, then its text |
| Chapters.Outputs | atomic_kotlin_builder/util.py:77-85 | one file per chapter, in map order |
| Chapters.WriteChapters | atomic_kotlin_builder/util.py:77-85 | the writing loop produces exactly those files |
| Chapters.OutputNamesDistinct | atomic_kotlin_builder/util.py:77-80 | when the filename determines the position, no two chapters share a file |
| RenumberAtoms.RemoveMarks | book_builder/renumber_atoms.py:13 | deleting characters never lengthens the title |
| RenumberAtoms.GenerateName | book_builder/renumber_atoms.py:11-17 | generating a name fails exactly on an empty atom, which has no first line (IndexError) |
| RenumberAtoms.ReplaceChainConcat | book_builder/renumber_atoms.py:14-16 | the three replacements act on each part of a concatenation separately (no pattern spans two parts) |
| RenumberAtoms.ReplaceChainChar | book_builder/renumber_atoms.py:14-16 | on one character the replacements map `&` to "and" and `-` and space to `_` |
| RenumberAtoms.TitlePartIsTitleName | book_builder/renumber_atoms.py:13-16 | the regex followed by the replacements equals the one-character-at-a-time reference transform |
| RenumberAtoms.TitleNameClean | book_builder/renumber_atoms.py:13-16 | no backtick, `:`, `!`, `,`, `&`, `-` or space survives |
| RenumberAtoms.GenerateNameLayout | book_builder/renumber_atoms.py:17 | three digits that read back as the position, `_`, the transformed first line, `.md` |
| RenumberAtoms.Titles | book_builder/renumber_atoms.py:21-22 | one pair per atom |
| RenumberAtoms.TitlesOk | book_builder/renumber_atoms.py:21-22 | the pairs exist exactly when every name can be generated |
| RenumberAtoms.TitlesValue | book_builder/renumber_atoms.py:21-22 | each atom is paired with the name generated for its number |
| RenumberAtoms.TitleListOk | book_builder/renumber_atoms.py:20-23 | the list fails, with IndexError, exactly when some atom (the first included) is empty |
| RenumberAtoms.TitleListValue | book_builder/renumber_atoms.py:20-23 | the first atom is dropped; entry i is the atom at position i + 1 with the name generated for i + 1 |
| RenumberAtoms.TitlesError | book_builder/renumber_atoms.py:12 | the only failure is IndexError |
| RenumberAtoms.RenameAtoms | book_builder/renumber_atoms.py:26-32 | the loop makes exactly the renames of the reversed list whose names differ |
| RenumberAtoms.RenamesMembers | book_builder/renumber_atoms.py:28 | a pair is renamed exactly when it is listed and its names differ |
| RenumberAtoms.RenamesLastFirst | book_builder/renumber_atoms.py:27 | the last pair is renamed before all others |
| Zubtools.CheckForNotes | book_builder/zubtools.py:13-20 | the loop reports whether some line starts "+ Notes:" with more text after it, and reports every such line in order |
| Zubtools.NoteLinesMembers | book_builder/zubtools.py:15-17 | the reported lines are exactly the lines with notes |
| Zubtools.CheckForNotesReports | book_builder/zubtools.py:13-20 | a file reports notes exactly when it has a notes line |
| Zubtools.KeptMembers | book_builder/zubtools.py:24-34 | a line survives exactly when it is present and is neither a review checkbox nor a "+ Notes:" line |
| Zubtools.KeptConcat | book_builder/zubtools.py:34 | filtering keeps the order of the lines |
| Zubtools.NewlineRun | book_builder/zubtools.py:35 | the maximal run of line breaks at the start of the text |
| Zubtools.CollapseHead | book_builder/zubtools.py:35 | the collapse is empty only for empty text and starts with the text's first character |
| Zubtools.CollapseNoTriple | book_builder/zubtools.py:35 | after the collapse no three line breaks are adjacent |
| Zubtools.CollapseFixed | book_builder/zubtools.py:35 | text without three adjacent line breaks is left unchanged |
| Zubtools.CollapseIdempotent | book_builder/zubtools.py:35 | collapsing twice is collapsing once |
| Zubtools.CollapseKeepsText | book_builder/zubtools.py:35 | every character other than a line break survives, in order |
| Zubtools.Rewritten | book_builder/zubtools.py:34-36 | the written text ends in a line break |
| Zubtools.RewrittenLayout | book_builder/zubtools.py:35-36 | the written text has no three adjacent line breaks before its final one |
| Zubtools.FirstWithNotesIs | book_builder/zubtools.py:30-33 | the stopping point is the first file with notes, or the end |
| Zubtools.RemoveCheckboxes | book_builder/zubtools.py:23-36 | every file before the first one with notes is rewritten, in order, and that file and all later ones are left alone; the message is returned exactly when such a file exists |
| BookFix.GapScan | book_builder/fix.py:31-34 | a triple the scan reports lies at or after the start and fits inside the list |
| BookFix.Delete | book_builder/fix.py:35 | `del lines[i]` leaves one line fewer |
| BookFix.Degap | book_builder/fix.py:30-39 | the loop over the lines returns exactly what the first-triple scan specifies: IndexError, the list unchanged with False, or the list without the first triple's blank line with True |
| BookFix.GapScanFound | book_builder/fix.py:31-38 | a reported index is a package / blank / import triple and no triple starts earlier |
| BookFix.GapScanNone | book_builder/fix.py:39 | when the scan finds nothing, no triple exists |
| BookFix.GapScanError | book_builder/fix.py:32-34 | the scan raises only IndexError, and only when the last line starts `package ` or the last two are `package ` and a blank line |
| BookFix.PackageLastRaises | book_builder/fix.py:32-34 | a `package ` line in last position with no triple before it raises IndexError |
| BookFix.DegapSpec | book_builder/fix.py:30-39 | one `degap`: only IndexError; unchanged implies no triple; a change deletes the blank line of the first triple |
| BookFix.DegapNoGap | book_builder/fix.py:39 | a list with no triple comes back unchanged with False, or raises |
| BookFix.FixGapBetweenPackageAndImport | book_builder/fix.py:42-47 | the `while True` loop returns the fixed point of repeated `degap`; it ends because each round shortens the list |
| BookFix.DeleteBlank | book_builder/fix.py:35 | deleting a blank line keeps the non-blank lines in order |
| BookFix.FixGapSpec | book_builder/fix.py:42-47 | the result has no triple left, is no longer than the input and keeps every non-blank line in order; the only error is IndexError |
| FixExercisesModel.LineAt | zzz_imported_tools/Residual/FixExercises.py:36-39 | the line at the position, or "" at or past the end |
| FixExercisesModel.LeadingDigitsRun | zzz_imported_tools/Residual/FixExercises.py:57 | the digit run that `\d+` matches is the longest one: digits before it, none right after |
| FixExercisesModel.FindHeader | zzz_imported_tools/Residual/FixExercises.py:46-54 | a heading the scan reports lies at or after the cursor and its underline is inside the input |
| FixExercisesModel.SkipToFirst | zzz_imported_tools/Residual/FixExercises.py:57-58 | the first loop stops at the first exercise start, or at the end |
| FixExercisesModel.BodyEndFirst | zzz_imported_tools/Residual/FixExercises.py:66-69 | the second loop stops at the first empty or backslash line, or at the end |
| FixExercisesModel.ListingEndFirst | zzz_imported_tools/Residual/FixExercises.py:80 | the listing loop stops at the first empty line, or at the end |
| FixExercisesModel.Unslash | zzz_imported_tools/Residual/FixExercises.py:74-82 | `line[:-1]` on a backslash line: adding the backslash back gives the line; other lines are unchanged |
| FixExercisesModel.Unslashed | zzz_imported_tools/Residual/FixExercises.py:79-86 | every listing line is written without its trailing backslash, one output line per input line |
| FixExercisesModel.Walk | zzz_imported_tools/Residual/FixExercises.py:56-88 | a call never moves the cursor backwards or past the end, and moves it forward from any non-empty line |
| FixExercisesModel.ListingShape | zzz_imported_tools/Residual/FixExercises.py:79-88 | the listing is the lines up to the next empty line without their backslashes, then "    ```" |
| FixExercisesModel.BodyShapeListing | zzz_imported_tools/Residual/FixExercises.py:66-77 | the body is copied up to its first backslash line, which is written without the backslash and followed by "    ```scala" and the listing |
| FixExercisesModel.BodyShapePlain | zzz_imported_tools/Residual/FixExercises.py:66-70 | without a backslash line the body is copied up to the empty line or the end |
| FixExercisesModel.SkipShape | zzz_imported_tools/Residual/FixExercises.py:57-58 | lines before the next exercise start are copied as they are |
| FixExercisesModel.OneExerciseListing | zzz_imported_tools/Residual/FixExercises.py:56-88 | one exercise with a listing, as slices of the input cut at the exercise start, the backslash line and the next empty line |
| FixExercisesModel.OneExercisePlain | zzz_imported_tools/Residual/FixExercises.py:56-70 | one exercise without a listing copies up to its first empty line |
| FixExercisesModel.OneExerciseLength | zzz_imported_tools/Residual/FixExercises.py:56-88 | a call outputs every line it passes, plus the two fences when it opens a listing |
| FixExercisesModel.NoListingUnchanged | zzz_imported_tools/Residual/FixExercises.py:29-70 | where no line ends in a backslash the exercise loop copies the lines unchanged |
| FixExercisesModel.ExercisesLength | zzz_imported_tools/Residual/FixExercises.py:29-30 | the exercise loop never drops a line |
| FixExercisesModel.FindHeaderFound | zzz_imported_tools/Residual/FixExercises.py:47-51 | a reported heading is "Exercises" over a "---------" line and is the first one |
| FixExercisesModel.FindHeaderNone | zzz_imported_tools/Residual/FixExercises.py:47-54 | when none is reported there is no heading and the last line is not "Exercises" |
| FixExercisesModel.FindHeaderError | zzz_imported_tools/Residual/FixExercises.py:48 | the scan raises IndexError exactly when it reaches an "Exercises" last line with no heading before it |
| FixExercisesModel.FixedSpec | zzz_imported_tools/Residual/FixExercises.py:23-33 | the finished object: IndexError only for an "Exercises" last line; without a heading the output is the input; with one the output copies the input through the underline, is longer than the input and ends with "" |
| FixExercisesModel.FixExercises.CurrentLine | zzz_imported_tools/Residual/FixExercises.py:36-39 | the current line, or "" at or past the end |
| FixExercisesModel.FixExercises.AppendLine | zzz_imported_tools/Residual/FixExercises.py:41-44 | copies the current line and advances only before the end; the cursor stays within the input |
| FixExercisesModel.FixExercises.FindExercises | zzz_imported_tools/Residual/FixExercises.py:46-54 | copies the input through the first heading's underline and returns the position after it, or copies everything and returns None, or raises IndexError |
| FixExercisesModel.FixExercises.FixRemainder | zzz_imported_tools/Residual/FixExercises.py:79-88 | appends the listing and the closing fence and returns whether input remains |
| FixExercisesModel.FixExercises.FixBackslashes | zzz_imported_tools/Residual/FixExercises.py:72-77 | appends the backslash line without its backslash, the Scala fence and the listing |
| FixExercisesModel.FixExercises.CopyToExercise | zzz_imported_tools/Residual/FixExercises.py:57-58 | copies the lines up to the next exercise start |
| FixExercisesModel.FixExercises.FixExerciseBody | zzz_imported_tools/Residual/FixExercises.py:66-70 | copies the body or hands its first backslash line on, and returns whether input remains |
| FixExercisesModel.FixExercises.FixOneExercise | zzz_imported_tools/Residual/FixExercises.py:56-70 | appends what one exercise walk outputs and returns whether input remains |
| FixExercisesModel.FixExercises.FixAllExercises | zzz_imported_tools/Residual/FixExercises.py:29-30 | runs `fix_one_exercise` until it reports the end, consuming the whole input |
| FixExercisesModel.FixExercises.constructor | zzz_imported_tools/Residual/FixExercises.py:23-33 | the new object holds what the finished-object specification gives, or records its IndexError |
| FixCodeModel.StartMarker | zzz_imported_tools/Residual/FixCode.py:18-19 | the start marker is four characters longer than its tag |
| FixCodeModel.EndMarker | zzz_imported_tools/Residual/FixCode.py:22-23 | the end marker is eight characters longer than its tag |
| FixCodeModel.MarkerLayout | zzz_imported_tools/Residual/FixCode.py:18-23 | a start marker is `[$`, the tag, `$]`; each marker determines its tag; the end marker of `t` is the start marker of `end_t` and differs from the start marker of `t` |
| FixCodeModel.KeyAt | zzz_imported_tools/Residual/FixCode.py:56 | the alternative the regex picks is an entry of the table whose key opens the text |
| FixCodeModel.SubstituteUntouched | zzz_imported_tools/Residual/FixCode.py:51-56 | text in which no key occurs is returned unchanged |
| FixCodeModel.SubstituteKey | zzz_imported_tools/Residual/FixCode.py:51-56 | a key at the front is replaced by its value and the substitution continues after it |
| FixCodeModel.CharsKeys | zzz_imported_tools/Residual/FixCode.py:27-50 | every key of `chars` is two characters long and the keys are distinct |
| FixCodeModel.FixTextSpec | zzz_imported_tools/Residual/FixCode.py:55-56 | `fix_text` is the identity on text with no key, and replaces a leading key by its value |
| FixCodeModel.FixLine | zzz_imported_tools/Residual/FixCode.py:86-94 | the space-counting loop returns what `fixline` specifies: the empty line unchanged, IndexError on an all-space line, the line itself for an even count, the line without its first character for an odd count |
| FixCodeModel.FixLineError | zzz_imported_tools/Residual/FixCode.py:90-91 | `fixline` raises, always IndexError, exactly on a non-empty line made only of spaces |
| FixCodeModel.FixLineEven | zzz_imported_tools/Residual/FixCode.py:89-94 | otherwise the result has an even number of leading spaces, is the line or the line minus its first space, and keeps the text after the spaces |
| FixCodeModel.FixupWalk | zzz_imported_tools/Residual/FixCode.py:116-126 | the line that closes a listing lies after the listing's start and inside the input |
| FixCodeModel.CodeWalkVerbatim | zzz_imported_tools/Residual/FixCode.py:103-111 | with no "```scala" line followed by "1   //" and no "```scala" last line, every line is copied verbatim |
| FixCodeModel.FixupWalkError | zzz_imported_tools/Residual/FixCode.py:116-119 | `fixup` fails only with IndexError |
| FixCodeModel.CodeWalkError | zzz_imported_tools/Residual/FixCode.py:103-106 | the constructor's loop fails only with IndexError |
| FixCodeModel.FixupWalkCloses | zzz_imported_tools/Residual/FixCode.py:116-126 | the lines between the opening and the closing line are numbered or empty, the closing line is neither, and the output ends with "```", "" and the closing line |
| FixCodeModel.FixupNumbered | zzz_imported_tools/Residual/FixCode.py:118-119 | a numbered line adds `fixline(line[3:])` to the output |
| FixCodeModel.FixupEmpty | zzz_imported_tools/Residual/FixCode.py:120-121 | an empty line inside a listing is dropped |
| FixCodeModel.FixupCloses | zzz_imported_tools/Residual/FixCode.py:122-126 | the first other line closes the listing with "```", "" and that line |
| FixCodeModel.CodeWalkCopy | zzz_imported_tools/Residual/FixCode.py:107-110 | a line that opens no listing is copied |
| FixCodeModel.CodeWalkListing | zzz_imported_tools/Residual/FixCode.py:104-106 | a listing rewritten by `fixup` is appended and the scan resumes after its closing line |
| FixCodeModel.FixCode.Fixup | zzz_imported_tools/Residual/FixCode.py:114-126 | the new `output` and `index` are those of the listing walk from the current line, or the walk's IndexError is returned |
| FixCodeModel.FixCode.constructor | zzz_imported_tools/Residual/FixCode.py:98-111 | `output` is the result of the whole-input walk, or `raised` holds its IndexError |
| SolutionExtractor.Run | book_builder/solution_extractor.py:15 | the unmarked lines that open the queue fit inside it |
| SolutionExtractor.RunFirst | book_builder/solution_extractor.py:15 | the loop stops at the first line holding either marker, or when the queue is empty |
| SolutionExtractor.GatherLines | book_builder/solution_extractor.py:17-19 | the accumulated text splits back into exactly the lines that are not fences, in order |
| SolutionExtractor.Extracted | book_builder/solution_extractor.py:12-20 | `extract` always consumes at least the header line |
| SolutionExtractor.Extract | book_builder/solution_extractor.py:12-20 | the popping loop returns what the extraction specification gives: IndexError on an empty queue or a header without `start`, ValueError on an empty `start`, else number, stripped text and remaining lines |
| SolutionExtractor.RunAt | book_builder/solution_extractor.py:15 | a position inside the run ends it exactly when it is the end or a marked line |
| SolutionExtractor.ExtractSpec | book_builder/solution_extractor.py:12-20 | it fails exactly when the queue is empty, `start` is empty or the header lacks `start`; otherwise the number is `split(start)[1]`, the header and the following unmarked lines are consumed, the first marked line stays, and the text is the kept lines stripped |
| SolutionExtractor.ExercisesAndSolutions.constructor | book_builder/solution_extractor.py:24-46 | `contains_exercises` holds iff the heading is one of the atom's lines; without it nothing is parsed; with it the two dictionaries are the exercise and solution entries of the text after the heading |
| SolutionExtractor.ParseExtract | book_builder/solution_extractor.py:38-44 | a marked line opens one entry, the exercise marker checked first, and parsing resumes after its text |
| SolutionExtractor.TableStep | book_builder/solution_extractor.py:41-44 | an entry is stored in its own kind's dictionary and leaves the other unchanged |
| SolutionExtractor.TableLast | book_builder/solution_extractor.py:41-44 | the dictionary holds the text of the last entry with a given number: a repeated number overwrites |
| SolutionExtractor.TableAbsent | book_builder/solution_extractor.py:41-44 | a number with no entry of the kind is not a key |
| SolutionExtractor.HeadsSkip | book_builder/solution_extractor.py:45-46 | unmarked lines before the first marked line open no entry |
| SolutionExtractor.ParseHeads | book_builder/solution_extractor.py:38-46 | the parsed entries are exactly the marked lines, in order, with their kinds and numbers; every other line is dropped or absorbed into a text |
| SolutionExtractor.WriteExerciseLayout | book_builder/solution_extractor.py:98-100 | the heading centred in 78 dashes (the smaller half on the left), two breaks, the description unchanged, two breaks |
| HtmlGenerator.SampleEndFixupSpec | book_builder/html_generator.py:54-62 | a file without the tag is left alone; a tag only inside a longer line raises ValueError; otherwise the new text is the lines before the first tag line, joined and stripped, then "\n\n" and the end text |
| HtmlGenerator.SampleEndTagLine | book_builder/html_generator.py:58-62 | a tag on a line of its own always gets the file rewritten |
| HtmlGenerator.StemMarkdown | book_builder/html_generator.py:92 | the stem of a Markdown file name is the name without ".md" |
| HtmlGenerator.Stems | book_builder/html_generator.py:92 | one stem per file, in order |
| HtmlGenerator.RotateLeft | book_builder/html_generator.py:93-94 | `rotate(-1)` keeps the length |
| HtmlGenerator.RotateRight | book_builder/html_generator.py:95-96 | `rotate(1)` keeps the length |
| HtmlGenerator.Prev | book_builder/html_generator.py:96-99 | the previous position stays within the stems |
| HtmlGenerator.Next | book_builder/html_generator.py:94-99 | the next position stays within the stems |
| HtmlGenerator.PrevNextMod | book_builder/html_generator.py:93-99 | the positions are `(n - 1) % k` and `(n + 1) % k` |
| HtmlGenerator.RotateLeftAt | book_builder/html_generator.py:93-94 | after `rotate(-1)` position n holds the stem after n, wrapping at the end |
| HtmlGenerator.RotateRightAt | book_builder/html_generator.py:95-96 | after `rotate(1)` position n holds the stem before n, wrapping at the front |
| HtmlGenerator.RotateInverse | book_builder/html_generator.py:93-96 | the two rotations undo each other |
| HtmlGenerator.LinkTableGet | book_builder/html_generator.py:97-99 | with distinct stems, stem j of k links to stems `(j - 1) mod k` and `(j + 1) mod k` |
| HtmlGenerator.LinkTableAbsent | book_builder/html_generator.py:97-103 | a name that is not a stem has no links (KeyError in `Footer(md)`) |
| HtmlGenerator.LinkTablePresent | book_builder/html_generator.py:97-99 | every stem has links |
| HtmlGenerator.LinkTableWraps | book_builder/html_generator.py:93-99 | the first stem's previous is the last, the last stem's next is the first, and a single stem links to itself both ways |
| HtmlGenerator.FooterTable.constructor | book_builder/html_generator.py:85-99 | the class-level state starts empty |
| HtmlGenerator.FooterTable.Init | book_builder/html_generator.py:88-99 | an empty directory raises IndexError at the pop; otherwise the files lose the first (front matter), the stems, the two rotations and the link table are set |
| HtmlGenerator.FooterForEveryMarkdown | book_builder/html_generator.py:90-104 | every file kept by `init` gets a footer |
| HtmlGenerator.Times | book_builder/html_generator.py:108 | `"&nbsp;" * 10` has ten times the length |
| HtmlGenerator.FooterLayout | book_builder/html_generator.py:106-109 | the footer is the previous link, sixty characters of non-breaking spaces, the next link, then the copyright notice |
| Validators.TagNoGap | book_builder/validate.py:256-264 | the reports of `TagNoGap`, one listing after another; specified by `Validators.TagNoGapSpec` |
| Validators.HangingHyphens | book_builder/validate.py:375-387 | the reports of `HangingHyphens`, line after line; specified by `Validators.HangingHyphensSpec` |
| Validators.CheckBlankLines | book_builder/validate.py:654-672 | the two passes of `CheckBlankLines`, the blank-line pass first; specified by `Validators.CheckBlankLinesSpec` |
| Validators.CapitalizedComments | book_builder/validate.py:476-480 | the calls `CapitalizedComments` makes, with empty comment blocks passed over; related to the code as written by `Validators.CapitalizedCommentsAgree` |
| Validators.ListingIndentation | book_builder/validate.py:518-521 | one report for the first inconsistent listing, or none; specified by `Validators.FirstInconsistent` and `Validators.InconsistentSpec` |
| BookUtil.StripChapter | book_builder/util.py:101-106 | `strip_chapter`; specified by `BookUtil.StripChapterClean` and `BookUtil.StripChapterIdempotent` |
| BookUtil.AdjustLines | book_builder/util.py:292-307 | `adjust_lines` with its IndexError and ValueError; specified by `BookUtil.AdjustLinesNoNul`, `BookUtil.AdjustLinesUnmarked` and the `AdjustLinesFirst` lemmas |
| FixCodeModel.FixText | zzz_imported_tools/Residual/FixCode.py:27-56 | `fix_text` with the `chars` table; specified by `FixCodeModel.FixTextSpec` |
| FixCodeModel.FixLineResult | zzz_imported_tools/Residual/FixCode.py:86-94 | what `fixline` returns; specified by `FixCodeModel.FixLineError` and `FixCodeModel.FixLineEven`, and implemented by `FixCodeModel.FixLine` |
| FixCodeModel.CodeWalk | zzz_imported_tools/Residual/FixCode.py:98-112 | the output of the `FixCode` constructor loop; specified by `FixCodeModel.CodeWalkVerbatim`, `CodeWalkCopy`, `CodeWalkListing` and `CodeWalkError` |
| HtmlGenerator.SampleEndFixup | book_builder/html_generator.py:54-63 | the text `html_sample_end_fixup` writes back; specified by `HtmlGenerator.SampleEndFixupSpec` |
| HtmlGenerator.LinkTable | book_builder/html_generator.py:93-99 | the previous/next table `Footer.init` fills; specified by `HtmlGenerator.LinkTableGet`, `LinkTableAbsent`, `LinkTablePresent` and `LinkTableWraps` |
| HtmlGenerator.FooterText | book_builder/html_generator.py:106-109 | `str(footer)`; specified by `HtmlGenerator.FooterLayout` |
| SolutionExtractor.Parse | book_builder/solution_extractor.py:38-46 | the entries the constructor loop parses; specified by `SolutionExtractor.ParseHeads`, `ParseExtract` and `HeadsSkip` |
| SolutionExtractor.WriteExercise | book_builder/solution_extractor.py:98-100 | what `write_exercise` writes; specified by `SolutionExtractor.WriteExerciseLayout` |
| Zubtools.CollapseNewlines | book_builder/zubtools.py:35 | `re.sub('\n{2,}', '\n\n', …)`; specified by `Zubtools.CollapseNoTriple`, `CollapseFixed`, `CollapseIdempotent` and `CollapseKeepsText` |
| RenumberAtoms.TitleList | book_builder/renumber_atoms.py:20-23 | `title_list`; specified by `RenumberAtoms.TitleListOk` and `RenumberAtoms.TitleListValue` |

## Left out

- Text.SplitLines: splits on `'\n'` only. Python's `str.splitlines` also breaks at `\r`, `\x0b`, `\x0c`, `\x1c`-`\x1e`, `\x85`, `\u2028` and `\u2029`. So text holding those characters splits differently in every model that reads lines: `MarkdownFile`/`CodeListing` lines, `Data`'s set of stripped lines, `Zubtools`, `SolutionExtractor`, `HtmlGenerator.SampleEndFixupSpec`, `BookUtil.AdjustLinesFirst` and the rest of `adjust_lines`.
- Text.IsSpace, Text.IsLower, Text.IsUpper, Text.IsAlpha, Text.Lower, Text.Capitalize: ASCII only. `Text.IsSpace` holds the ASCII whitespace of `str.isspace` (space, `\t`, `\n`, `\r`, `\x0b`, `\x0c` and `\x1c`-`\x1f`), but not `\x85`, `\xa0` or the other non-ASCII separators that `strip()` and `split()` also remove. Python's Unicode letter classes are not modelled, so a comment starting with "élan" is not seen as lower-case (book_builder/validate.py:471-472). The same holds for `\S` in the package pattern (book_builder/validate.py:98) and for `\d`/`\s` in the exercise-header pattern of `FixExercises`.
- Numerals.ParseInt: accepts an optional sign and ASCII digits. Python's `int()` (book_builder/util.py:297, 302) also accepts underscores between digits, surrounding whitespace and Unicode digits, so `adjust_lines` reports ValueError for a few counts that Python accepts.
- FixCodeModel.FixCode.Fixup: the identity test `line is ""` (zzz_imported_tools/Residual/FixCode.py:121) is modelled as equality with the empty string. CPython shares one empty-string object, so the two agree there.
- Configuration: `config.msgbreak`, `config.start_comment`, `config.exercise_header`, `config.copyright_notice` and `config.data_path` are not defined in book_builder/config.py. The model takes the first four as parameters and the storage directory as a path argument. Because `config.data_path` is missing, the default argument of `Data.__init__` (book_builder/validate.py:195) fails when the module is imported; the model does not capture that failure.
- Validators.DirectoryNameConsistency: returns only the verdict (several directories; the calculated directory when it is missing). It does not make the `exclude.error`/`md.error` calls whose messages embed `pprint.pformat` of a set (book_builder/validate.py:728-738), since that rendering depends on set iteration order.
- Validators.CapitalizedComments: skips comment blocks that strip to nothing. As written, such a block raises IndexError (book_builder/validate.py:471). That code is modelled separately as `Validators.CapitalizedCommentsAsWritten` and recorded under Findings.
- HtmlGenerator.SampleEndFixup, HtmlGenerator.SampleEndFixupSpec: model the truncation only. The `strip_review_notes(md)` call on the result (book_builder/html_generator.py:63) is left out here; its text transform is `BookUtil.StripReviewNotes`.
- The external editor and shell are not modelled: `Editor.open`, `os.system`, `ErrorReporter.edit` and the `subl` call in `check_for_notes`. Requests to open a file are kept as data (the editor's file lists and `Validate.EditTargetLine`).
- `print`, `pprint` and console tracing are not modelled: the trace output of `MarkdownFile`, the reports of `DuplicateExampleNames.post_process` (the sets are returned instead) and the progress prints of FixExercises.py:60-62.
- Real file I/O, directory globbing and glob order: files are in-memory strings. The sorted list of Markdown names is an input, and so is the order of the files that are combined or renamed.
- Listing extraction and the chapter split: the lazy DOTALL regex that finds fenced listings (book_builder/validate.py:52-56) and the regex that splits a combined book into chapters are taken as given. Their results are inputs (`(marker, code)` pairs and the list of parts).
- `CodeListing.comment_remover` is left out with the regex-driven validators. Those are `Characters`, `PackageNames`, `HotWords`, `SpellCheck`, `FunctionDescriptions`, `PunctuationInsideQuotes`, `TickedWords`, `CrossLinks`, `MistakenBackquotes` and `JavaPackageDirectory`.
- `Data.__iter__` (book_builder/validate.py:220-221) is not modelled. `Exclusions` (book_builder/validate.py:224-230) is `Validate.Data` built with the `exclusions` subdirectory as its directory.
- `all_fixes` (book_builder/fix.py:10-22) is not modelled: it walks the Markdown directory and writes files. The per-file rewrite is `BookFix.FixGapBetweenPackageAndImport`.
- In solution_extractor.py, `write_no_exercises`, `write_solutions` and `__str__` are not modelled: they are file writers and a debugging dump. `write_exercise`'s layout is `SolutionExtractor.WriteExerciseLayout`.
- RenumberAtoms.GenerateNameLayout, BookUtil.NumberedFilenameWidth: state the three-digit layout for numbers below 1000. For larger numbers `%03d` is wider; `BookUtil.NumberedFilenameParts` covers every number.
- KotlinUtil.NumberedFilenameWidth, Disassemble.MdFilenameParts, KotlinEpub.AtomNameOfNumbered: state the two-digit layout for numbers below 100. For larger numbers `%02d` is wider.
- Python's integer and string types are unbounded here as in Python; nothing in the core depends on a fixed width.

## Findings

| source | as written | input that shows it | evidently intended | confidence | as-written member | corrected member |
|---|---|---|---|---|---|---|
| book_builder/validate.py:471 | `comment_block.strip()[0]` indexes the first character of every comment block, and a block whose comment lines hold nothing after `//` strips to the empty string, so the validator raises IndexError and the whole run stops | a listing with the lines `// a/B.kt` and `//` (an empty comment line after the slugline) | an empty comment block has no first letter to check and is passed over | not executed | Validators.EmptyCommentRaises (on `Validators.FindUncapitalizedAsWritten`) | Validators.FindUncapitalized, with Validators.UncappedAgrees and Validators.CapitalizedCommentsAgree |
