# codexhub embedding worker — a Dafny model of its indexing core

The worker indexes a code repository for retrieval. It has three steps:

1. It walks the repository depth-first, skipping tool and build directories and unwanted files. It keeps only files with an allowed extension.
2. It cuts each file it reads into line-aligned chunks with an estimated token budget of 800, where a line is estimated at `ceil(length / 4)` tokens. Every chunk of two or more lines stays within 800; a longer single line is a chunk by itself.
3. It labels every chunk with the user id, the file's path and language, the chunk's position in its file, and its line range.

The labelled chunks are then handed to an embedding and storage service. That service is not modelled.

The project has five modules:

- `Lines` (`lines.dfy`): JavaScript's `split("\n")` and `join("\n")`, the text of lines each followed by a newline, and `trim()`.
- `Chunker` (`chunker.dfy`): `splitCodeSmart` as a method with a loop.
  - The method is proved to compute `SmartChunks`, a function that folds one step per line.
  - Lemmas state what the chunks are: tiling, text, coverage, budget, greedy closing, and the empty first chunk.
- `Paths` (`paths.dfy`): Node's posix `path.extname`, and `path.join` of a directory and an entry name.
- `Traverse` (`traverse.dfy`): `traverseFiles` and its recursive `walk`, over an in-memory tree of entries.
  - The shared result object is the class `Walker`, with fields updated in place.
  - `FilesOf` and the three counting functions state what a walk computes.
  - `Visits`, the list of every file reached in depth-first order, is an independent reference for what the walk reads.
- `Pipeline` (`pipeline.dfy`): `fun`. It traverses, chunks each file with budget 800, labels the chunks into `Record`s and concatenates them.

One might expect `"a\nb\n"` to give one chunk of lines 0..1 with text `"a\nb\n"`. The code gives something else:

- `split` yields a third, empty line;
- every line is written back with a newline;
- the final buffer `"a\nb\n\n"` is not blank.

So the result is one chunk of lines 0..2 with text `"a\nb\n\n"`. The model follows the code (`Chunker.TrailingNewline`).

## Model

| member | source | states |
|---|---|---|
| Lines.Split | src/utils/splitCode.ts:5 | `split("\n")` yields at least one piece, and no piece holds a newline |
| Lines.JoinSplit | src/utils/splitCode.ts:5 | joining the pieces of a split with newlines gives back the text |
| Lines.SplitJoin | src/utils/splitCode.ts:5 | splitting a newline-join of newline-free pieces gives back the pieces |
| Lines.SplitLinesText | src/utils/splitCode.ts:5-26 | writing every line of the split followed by `"\n"` gives the text plus one `"\n"` |
| Lines.LinesBetweenSplit | src/utils/splitCode.ts:26 | the text of a range of lines is the text of its two halves, one after the other |
| Lines.LinesBetweenEmpty | src/utils/splitCode.ts:26 | a range of lines has empty text exactly when it holds no line |
| Lines.TrimStartIsSuffix | src/utils/splitCode.ts:30 | trimming the start removes only whitespace and stops at a visible character |
| Lines.TrimEndIsPrefix | src/utils/splitCode.ts:30 | trimming the end removes only whitespace and stops at a visible character |
| Lines.TrimEmptyIffBlank | src/utils/splitCode.ts:30 | `trim()` is empty (falsy) exactly when every character is whitespace |
| Lines.BlankConcat | src/utils/splitCode.ts:30 | a concatenation is all whitespace exactly when both parts are |
| Lines.Trim | src/utils/splitCode.ts:30 | `trim()`: the text without its leading and trailing JavaScript whitespace (WhiteSpace and LineTerminator characters) |
| Chunker.EstimateIsCeiling | src/utils/splitCode.ts:13 | the estimate is the least number of four-character blocks covering the line, i.e. `ceil(length / 4)` |
| Chunker.EstimateTokens | src/utils/splitCode.ts:13 | a line's estimate: `ceil(length / 4)` written as `(length + 3) / 4` |
| Chunker.Step | src/utils/splitCode.ts:12-27 | one iteration: if the buffer's estimate plus the line's would exceed `maxTokens`, close the buffer as a chunk ending at the previous line and restart it at this line; then append the line and a newline and add its estimate |
| Chunker.ScanLines | src/utils/splitCode.ts:11-28 | the loop's four variables after the first `n` lines, starting from no chunks, an empty buffer, estimate 0 and start line 0 |
| Chunker.Finish | src/utils/splitCode.ts:30-36 | after the loop, the buffer becomes a last chunk ending at the last line only if `trim()` leaves something |
| Chunker.SmartChunks | src/utils/splitCode.ts:1-39 | the chunks of a text: split it into lines, run every line through the loop, then apply the final flush |
| Chunker.SplitCodeSmart | src/utils/splitCode.ts:1-39 | the loop returns exactly `SmartChunks(code, maxTokens)`: the per-line fold followed by the final trim test |
| Chunker.ScanInvariant | src/utils/splitCode.ts:11-28 | after any number of lines, the buffer is the text and estimate of the lines since `startLine`, the closed chunks tile the lines before it, and each closed chunk is exactly the text of its range and was closed only because the next line did not fit |
| Chunker.ChunkTextIsLines | src/utils/splitCode.ts:16-35 | every chunk's range lies within the lines, and its text is those lines, each followed by `"\n"` |
| Chunker.ChunksTile | src/utils/splitCode.ts:16-35 | the first chunk starts at line 0, and each chunk starts right after the previous one ends |
| Chunker.FinalTiledAll | src/utils/splitCode.ts:16-35 | the chunks are adjacent ranges from line 0 up to the end of the last one |
| Chunker.Coverage | src/utils/splitCode.ts:5-36 | the chunk texts followed by the text of the dropped lines are `code + "\n"`; the dropped part is all whitespace; nothing is dropped exactly when the concatenation is `code + "\n"` |
| Chunker.CoverageOfLines | src/utils/splitCode.ts:11-36 | the same for lines already split, and nothing is dropped exactly when the final buffer passes the trim test |
| Chunker.LastLineKeepsBuffer | src/utils/splitCode.ts:26-30 | a final buffer that ends with a visible last line passes the trim test |
| Chunker.CoverageWhenLastLineHasContent | src/utils/splitCode.ts:26-36 | when the last line is not blank, the chunks concatenate to exactly `code + "\n"` |
| Chunker.Budget | src/utils/splitCode.ts:13-27 | every chunk of two or more lines has an estimate within `maxTokens`; an over-budget chunk is a single line, or the empty first chunk under a negative budget |
| Chunker.Greedy | src/utils/splitCode.ts:15-24 | every chunk but the last was closed because adding the next line would exceed `maxTokens` |
| Chunker.EmptyTextIffNoLines | src/utils/splitCode.ts:15-26 | a chunk's text is empty exactly when its range holds no line |
| Chunker.EmptyChunk | src/utils/splitCode.ts:15-20 | the first chunk is empty exactly when line 0's estimate alone exceeds `maxTokens`, and it is then `Chunk("", 0, -1)` |
| Chunker.LaterChunksHaveText | src/utils/splitCode.ts:15-26 | every chunk after the first holds at least one line and non-empty text |
| Chunker.EmptyInput | src/utils/splitCode.ts:5-36 | `""` gives no chunk, except one empty chunk `("", 0, -1)` when `maxTokens` is negative |
| Chunker.FitsInOneChunk | src/utils/splitCode.ts:11-36 | a text that is not blank and whose whole estimate fits the budget is one chunk: all its lines, text `code + "\n"` |
| Chunker.TrailingNewline | src/utils/splitCode.ts:5-36 | `"a\nb\n"` at budget 800 gives one chunk of lines 0..2 with text `"a\nb\n\n"` |
| Chunker.TwoUnitLines | src/utils/splitCode.ts:11-36 | two one-token lines at budget 1 are closed one by one; the second is kept only if not blank |
| Chunker.TwoChunks | src/utils/splitCode.ts:15-36 | `"ab\ncd"` at budget 1 gives `("ab\n", 0, 0)` and `("cd\n", 1, 1)` |
| Chunker.BlankChunkInsideKept | src/utils/splitCode.ts:15-30 | `"    \nx"` at budget 1 gives `("    \n", 0, 0)` and `("x\n", 1, 1)`: the first chunk is blank and still kept, because only the final buffer gets the trim test |
| Chunker.BlankTailDropped | src/utils/splitCode.ts:30-36 | a blank final buffer is dropped, so the last chunk ends before the last line |
| Chunker.VisibleSurvivesTrim | src/utils/splitCode.ts:30 | a text with a visible character passes the trim test |
| Chunker.CostMonotone | src/utils/splitCode.ts:13-27 | the estimate of a range grows with the range |
| Paths.LastDot | src/utils/traverse.ts:133 | the index found is a `.` inside the text, or -1 |
| Paths.Extname | src/utils/traverse.ts:133 | `path.extname`: the last segment (trailing slashes ignored) from its last `.` to its end; empty when there is no `.`, when the last `.` is the segment's first character, or when the segment is `..` |
| Paths.JoinPath | src/utils/traverse.ts:112 | `path.join(dir, name)`: the name alone for an empty directory, otherwise the two joined by exactly one `/` |
| Paths.LastDotIsLast | src/utils/traverse.ts:133 | no `.` comes after the one `LastDot` finds |
| Paths.ExtnameShape | src/utils/traverse.ts:133 | an extension is empty, or starts with its only `.` and holds no `/` |
| Paths.ExtnameNoDot | src/utils/traverse.ts:133 | a name without a dot has no extension |
| Paths.ExtnameOfName | src/utils/traverse.ts:133 | `stem.x` has extension `.x`, except for a leading-dot name such as `.env` and for `..`, which have none |
| Paths.ExtnameOfJoin | src/index.ts:16 | the extension of a joined path is the extension of the entry name |
| Traverse.Walker.constructor | src/utils/traverse.ts:103-106 | the result starts with no files and all counters at zero |
| Traverse.KeepFile | src/utils/traverse.ts:127-138 | a file is read when its name is not in the skipped-file set and its extension is in the allowed set |
| Traverse.FilesOf | src/utils/traverse.ts:108-144 | the files a walk reads from a listing, in order: nothing from a skipped directory, a non-skipped directory's files at its place, a kept file as its joined path and content |
| Traverse.TotalFilesOf | src/utils/traverse.ts:125-126 | the number of files met in a listing and beneath its non-skipped directories |
| Traverse.SkippedFilesOf | src/utils/traverse.ts:127-138 | the number of files met whose name is skipped or whose extension is not allowed |
| Traverse.SkippedDirsOf | src/utils/traverse.ts:115-120 | the number of skipped directories met, each counted once and not entered |
| Traverse.Visits | src/utils/traverse.ts:108-144 | every file the walk reaches, with its joined path, name and content, in depth-first order, whatever its name |
| Traverse.Walker.Walk | src/utils/traverse.ts:108-144 | a walk over a listing appends `FilesOf` of that listing to `files` and adds the listing's counts to each counter, keeping read + skipped = total |
| Traverse.TraverseFiles | src/utils/traverse.ts:102-156 | the result is the files read in walk order and the three counts, with read + skipped files = total files |
| Traverse.Conservation | src/utils/traverse.ts:125-142 | every file counted is either read or counted as skipped |
| Traverse.EntryConservation | src/utils/traverse.ts:115-142 | the same for one entry and everything beneath it |
| Traverse.WalkIsFilteredVisits | src/utils/traverse.ts:108-144 | the files read are the files reached in depth-first order, filtered by `KeepFile`; the total counts every file reached |
| Traverse.EntryIsFilteredVisits | src/utils/traverse.ts:115-142 | the same for one entry and everything beneath it |
| Traverse.KeptMembership | src/utils/traverse.ts:126-141 | a reached file is among the kept ones exactly when its name passes `KeepFile` |
| Traverse.ReadIff | src/utils/traverse.ts:125-142 | a file is read, with its joined path and content, exactly when the walk reaches it and its name is not skipped and its extension is allowed |
| Traverse.FilesOfAppend | src/utils/traverse.ts:111-143 | the files read from two runs of entries are those of the first followed by those of the second |
| Traverse.VisitsAppend | src/utils/traverse.ts:111-143 | the files reached in two runs of entries are those of the first followed by those of the second |
| Traverse.CountsAppend | src/utils/traverse.ts:111-143 | each of the three counts of two runs of entries is the sum of their counts |
| Traverse.DropsOut | src/utils/traverse.ts:111-143 | an entry that reaches and counts no file can be removed from any position of a listing without changing the files or counts, except for its own skipped-directory count |
| Traverse.SkippedDirNotEntered | src/utils/traverse.ts:115-122 | a skipped directory at any position of a listing adds one to `skippedDirs`; the files read, the files reached and the other counts are those of the listing without it |
| Traverse.OtherIgnored | src/utils/traverse.ts:111-143 | an entry that is neither a directory nor a file, at any position of a listing, changes neither the files read or reached nor any counter |
| Traverse.ReadmeSkipped | src/utils/traverse.ts:28-51 | `README.md` has the allowed extension `.md` and is still skipped, because the name check comes first |
| Traverse.ReadFilesHaveAllowedExtensions | src/utils/traverse.ts:133-141 | on a tree with well-formed names, every file read has a path whose extension is allowed |
| Traverse.EntryReadFilesHaveAllowedExtensions | src/utils/traverse.ts:115-141 | the same for one entry and everything beneath it |
| Pipeline.Language | src/index.ts:16 | the language is empty when the path has no extension; otherwise the dot followed by the language is the extension; it holds no `.` and no `/` |
| Pipeline.Enrich | src/index.ts:13-21 | one record per chunk, numbered 0..N-1, each with the user id, the file path, the file's language and the chunk's text and line range |
| Pipeline.UserIdOrDefault | src/index.ts:6 | with no user id given, `"user_123"` is used; otherwise the given one |
| Pipeline.FileRecords | src/index.ts:11-21 | one file's records: its content chunked with budget 800, labelled with the user id and the file's path |
| Pipeline.AllRecords | src/index.ts:8-24 | `allChunks` after the loop over some files: each file's records appended in file order, starting from an empty list |
| Pipeline.Fun | src/index.ts:6-25 | `allChunks` is the records of every file the traversal reads, chunked with budget 800, in file order |
| Pipeline.RecordCount | src/index.ts:10-24 | there are as many records as chunks over all files read |
| Pipeline.ChunkCount | src/index.ts:10-24 | the total number of chunks the files yield |
| Pipeline.AllRecordsAppend | src/index.ts:23 | the records of two runs of files are those of the first followed by those of the second |
| Pipeline.RecordsInFileOrder | src/index.ts:10-24 | each file's records sit together, in chunk order, right after the records of the files before it |
| Pipeline.RecordsDescribeFiles | src/index.ts:13-21 | every record carries the user id and its path's language, and holds the chunk at its index of a file read with that path |
| Pipeline.LanguagesAllowed | src/index.ts:16 | on a tree with well-formed names, every record's language with a dot before it is an allowed extension |
| Pipeline.LanguageOfJoin | src/index.ts:16 | the language of a joined path is that of the entry name |
| Pipeline.OneSmallFile | src/index.ts:10-23 | a repository with one small, non-blank file that is read gives one record: index 0, all lines, text plus `"\n"` |
| Pipeline.IndexTsName | src/utils/traverse.ts:127-134 | `index.ts` is read, and its language is `ts` |
| Pipeline.ThreeLines | src/utils/splitCode.ts:5-13 | `"line1\nline2\nline3\n"` is four lines within budget 800 and not blank |
| Pipeline.SmallIndexTs | src/index.ts:10-23 | `index.ts` with four lines that fit gives one record, ending at line 3 |
| Pipeline.IndexTsExample | src/index.ts:6-23 | with no user id, `index.ts` holding `"line1\nline2\nline3\n"` gives one record: user `"user_123"`, language `ts`, index 0, lines 0..3, text ending in two newlines |

## Left out

- Embedding and storage (`embedAndStoreChunks`, the vector store client, record ids, environment configuration): src/utils/embedAndStore.ts is not part of this model. `Pipeline.Fun` ends with the `allChunks` that would be handed to it.
- The file system:
  - `readdir` is the given children of a directory, in the given order;
  - `readFile` is a file's given content, already decoded;
  - asynchrony and I/O errors are not modelled.
- Logging (`console.log`): it has no effect on the results.
- `Paths.JoinPath`: does not model Node's normalisation of `.` and `..` segments, repeated slashes, or a leading `./` in the directory.
- `Paths.Extname`: follows posix path rules only, not Windows ones.
- Chunker.EstimateTokens: `|line|` counts Unicode scalar values, while JavaScript's `line.length` counts UTF-16 code units. A line with characters outside the Basic Multilingual Plane is therefore estimated lower, and may be cut at a different place. `trim()` is unaffected, because every character it removes lies in that plane.
- Symbolic links and other special entries are passed over uncounted (`Traverse.Entry.Other`); the source does the same, because their `isDirectory()` and `isFile()` are false.
- `splitCodeSmart`'s default `maxTokens = 800` is not modelled as a default: `Chunker.SplitCodeSmart` takes the budget as a parameter, and `Pipeline` passes 800 as `fun` does.
