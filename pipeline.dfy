/**
 * `fun(repoPath, userId)` of src/index.ts: walk the repository, cut every
 * file read into chunks with a budget of 800 estimated tokens (every chunk
 * of two or more lines stays within 800; a longer single line is a chunk
 * by itself), and label each chunk with the user, the file's path, its
 * language (the extension without its dot) and its position among the
 * file's chunks. The labelled chunks of all files, in the order the files
 * were read, are what the worker hands on to be embedded and stored.
 *
 * `AllRecords` states what the method `Fun` computes; the lemmas after it
 * say how records are laid out and what each one carries.
 */
module Pipeline {
  import Lines
  import opened Paths
  import opened Chunker
  import opened Traverse

  /** The user id `fun` uses when none is given. */
  const DefaultUserId: string := "user_123"

  /** The token budget `fun` passes to `splitCodeSmart`. */
  const ChunkBudget: int := 800

  datatype Option<T> = None | Some(value: T)

  /** One enriched chunk, as built in the `map` of `fun`. */
  datatype Record = Record(
    userId: string,
    filePath: string,
    language: string,
    chunkIndex: nat,
    startLine: int,
    endLine: int,
    chunk: string)

  /** The chunk a record was made from. */
  function ChunkOf(r: Record): Chunk
  {
    Chunk(r.chunk, r.startLine, r.endLine)
  }

  /**
   * `path.extname(filePath).slice(1)`: the extension without its dot, or
   * empty when the path has no extension.
   */
  function Language(filePath: string): (r: string)
    ensures Extname(filePath) == "" ==> r == ""
    ensures Extname(filePath) != "" ==> "." + r == Extname(filePath)
    ensures '.' !in r && '/' !in r
  {
    ExtnameShape(filePath);
    var e := Extname(filePath);
    if e == "" then "" else e[1..]
  }

  /** `chunks.map(...)` for one file: each chunk labelled, numbered from 0. */
  function Enrich(userId: string, filePath: string, chunks: seq<Chunk>): (r: seq<Record>)
    ensures |r| == |chunks|
    ensures forall i :: 0 <= i < |r| ==>
              && r[i].chunkIndex == i
              && r[i].userId == userId
              && r[i].filePath == filePath
              && r[i].language == Language(filePath)
              && ChunkOf(r[i]) == chunks[i]
  {
    seq(|chunks|, i requires 0 <= i < |chunks| =>
      Record(userId, filePath, Language(filePath), i, chunks[i].startLine, chunks[i].endLine, chunks[i].chunk))
  }

  /** The records of one file read. */
  function FileRecords(userId: string, f: FileEntry): seq<Record>
  {
    Enrich(userId, f.filePath, SmartChunks(f.content, ChunkBudget))
  }

  /** `allChunks` after the loop of `fun` has gone through `files`. */
  function AllRecords(userId: string, files: seq<FileEntry>): seq<Record>
  {
    if files == [] then []
    else AllRecords(userId, files[..|files| - 1]) + FileRecords(userId, files[|files| - 1])
  }

  /** `userId = "user_123"`: the default applies when no id is passed. */
  function UserIdOrDefault(userId: Option<string>): (r: string)
    ensures userId.None? ==> r == DefaultUserId
    ensures userId.Some? ==> r == userId.value
  {
    match userId
    case None => DefaultUserId
    case Some(u) => u
  }

  /**
   * `fun(repoPath, userId)` up to the hand-off to storage: `entries` is
   * what `readdir(repoPath)` lists, and the result is `allChunks`.
   */
  method Fun(repoPath: string, entries: seq<Entry>, userId: Option<string>) returns (allChunks: seq<Record>)
    ensures allChunks == AllRecords(UserIdOrDefault(userId), FilesOf(repoPath, entries))
  {
    var result := TraverseFiles(repoPath, entries);
    var files := result.files;
    var user := UserIdOrDefault(userId);
    allChunks := [];
    for i := 0 to |files|
      invariant allChunks == AllRecords(user, files[..i])
    {
      var chunks := SplitCodeSmart(files[i].content, ChunkBudget);
      var metadataChunks := Enrich(user, files[i].filePath, chunks);
      assert files[..i + 1][..i] == files[..i];
      allChunks := allChunks + metadataChunks;
    }
    assert files[..|files|] == files;
  }

  // ---------------------------------------------------------------------
  // How the records are laid out
  // ---------------------------------------------------------------------

  /** The number of chunks each file yields, added up. */
  function ChunkCount(files: seq<FileEntry>): nat
  {
    if files == [] then 0
    else ChunkCount(files[..|files| - 1]) + |SmartChunks(files[|files| - 1].content, ChunkBudget)|
  }

  /** There is one record per chunk of every file. */
  lemma {:induction false} RecordCount(userId: string, files: seq<FileEntry>)
    ensures |AllRecords(userId, files)| == ChunkCount(files)
  {
    if files != [] {
      RecordCount(userId, files[..|files| - 1]);
    }
  }

  /** The records of two runs of files are those of the first followed by those of the second. */
  lemma {:induction false} AllRecordsAppend(userId: string, a: seq<FileEntry>, b: seq<FileEntry>)
    ensures AllRecords(userId, a + b) == AllRecords(userId, a) + AllRecords(userId, b)
    decreases |b|
  {
    if b == [] {
      assert a + b == a;
    } else {
      var b', f := b[..|b| - 1], b[|b| - 1];
      assert AllRecords(userId, a + b) == AllRecords(userId, a + b') + FileRecords(userId, f) by {
        assert (a + b)[..|a + b| - 1] == a + b';
        assert (a + b)[|a + b| - 1] == f;
      }
      AllRecordsAppend(userId, a, b');
      AppendAssoc(AllRecords(userId, a), AllRecords(userId, b'), FileRecords(userId, f));
    }
  }

  /**
   * File `j`'s records sit together, in chunk order, right after the
   * records of the files before it.
   */
  lemma RecordsInFileOrder(userId: string, files: seq<FileEntry>, j: nat)
    requires j < |files|
    ensures var start := |AllRecords(userId, files[..j])|;
            var rs := FileRecords(userId, files[j]);
            && start + |rs| <= |AllRecords(userId, files)|
            && AllRecords(userId, files)[start..start + |rs|] == rs
  {
    var init := files[..j];
    var rest := files[j + 1..];
    assert files == init + [files[j]] + rest;
    assert [files[j]][..0] == [];
    AllRecordsAppend(userId, init, [files[j]]);
    AllRecordsAppend(userId, init + [files[j]], rest);
  }

  /**
   * Every record belongs to a file read: it carries the given user id, that
   * file's path and its language, and one of the file's chunks at its index.
   */
  lemma {:induction false} RecordsDescribeFiles(userId: string, files: seq<FileEntry>)
    ensures forall r :: r in AllRecords(userId, files) ==>
              && r.userId == userId
              && r.language == Language(r.filePath)
              && exists f :: f in files && f.filePath == r.filePath
                   && r.chunkIndex < |SmartChunks(f.content, ChunkBudget)|
                   && SmartChunks(f.content, ChunkBudget)[r.chunkIndex] == ChunkOf(r)
  {
    if files != [] {
      var init := files[..|files| - 1];
      var f := files[|files| - 1];
      RecordsDescribeFiles(userId, init);
      forall r | r in AllRecords(userId, files)
        ensures && r.userId == userId
                && r.language == Language(r.filePath)
                && exists g :: g in files && g.filePath == r.filePath
                     && r.chunkIndex < |SmartChunks(g.content, ChunkBudget)|
                     && SmartChunks(g.content, ChunkBudget)[r.chunkIndex] == ChunkOf(r)
      {
        if r in AllRecords(userId, init) {
          var g :| g in init && g.filePath == r.filePath
                   && r.chunkIndex < |SmartChunks(g.content, ChunkBudget)|
                   && SmartChunks(g.content, ChunkBudget)[r.chunkIndex] == ChunkOf(r);
          assert g in files;
        } else {
          var rs := FileRecords(userId, f);
          assert r in rs;
          var i :| 0 <= i < |rs| && rs[i] == r;
          assert f in files;
        }
      }
    }
  }

  /**
   * On a tree whose names are as `readdir` gives them, every record's
   * language is an allowed extension without its dot.
   */
  lemma LanguagesAllowed(repoPath: string, entries: seq<Entry>, userId: string)
    requires WellNamed(entries)
    ensures forall r :: r in AllRecords(userId, FilesOf(repoPath, entries)) ==>
              "." + r.language in AllowedExtensions
  {
    var files := FilesOf(repoPath, entries);
    ReadFilesHaveAllowedExtensions(repoPath, entries);
    RecordsDescribeFiles(userId, files);
    assert "" !in AllowedExtensions;
    forall r | r in AllRecords(userId, files)
      ensures "." + r.language in AllowedExtensions
    {
      var f :| f in files && f.filePath == r.filePath
               && r.chunkIndex < |SmartChunks(f.content, ChunkBudget)|
               && SmartChunks(f.content, ChunkBudget)[r.chunkIndex] == ChunkOf(r);
      assert Extname(r.filePath) in AllowedExtensions;
    }
  }

  /** Joining a directory and a slash-free name keeps the name's language. */
  lemma LanguageOfJoin(dir: string, name: string)
    requires name != "" && '/' !in name
    ensures Language(JoinPath(dir, name)) == Language(name)
  {
    ExtnameOfJoin(dir, name);
  }

  /**
   * A repository holding one small file that is read and not all
   * whitespace yields a single record: chunk 0, from line 0 to the last
   * line, holding the whole text plus a newline.
   */
  lemma OneSmallFile(repoPath: string, name: string, code: string, userId: string)
    requires name != "" && '/' !in name && KeepFile(name)
    requires CostBetween(Lines.Split(code), 0, |Lines.Split(code)|) <= ChunkBudget
    requires !Lines.IsBlank(code)
    ensures AllRecords(userId, FilesOf(repoPath, [File(name, code)]))
         == [Record(userId, JoinPath(repoPath, name), Language(name), 0, 0, |Lines.Split(code)| - 1, code + "\n")]
  {
    OneEntry(repoPath, File(name, code));
    var f := FileEntry(JoinPath(repoPath, name), code);
    assert [f][..0] == [];
    FitsInOneChunk(code, ChunkBudget);
    LanguageOfJoin(repoPath, name);
  }

  /** `index.ts` is read, and its language is `ts`. */
  lemma IndexTsName()
    ensures KeepFile("index.ts") && Language("index.ts") == "ts"
  {
    var name := "index" + "." + "ts";
    assert Extname(name) == ".ts" by {
      ExtnameOfName("index", "ts");
    }
    assert name == "index.ts";
    assert name !in SkippedFileNames;
    assert ".ts" in AllowedExtensions;
  }

  /** Three lines and a final newline split into four lines, the last empty. */
  lemma ThreeLinesSplit(content: string)
    requires content == "line1" + "\n" + ("line2" + "\n" + ("line3" + "\n" + ""))
    ensures Lines.Split(content) == ["line1", "line2", "line3", ""]
  {
    Lines.SplitAtNewline("line3", "");
    Lines.SplitAtNewline("line2", "line3" + "\n" + "");
    Lines.SplitAtNewline("line1", "line2" + "\n" + ("line3" + "\n" + ""));
  }

  /** The four lines are estimated at 2 + 2 + 2 + 0 tokens. */
  lemma ThreeLinesCost()
    ensures CostBetween(["line1", "line2", "line3", ""], 0, 4) == 6
  {
    var lines := ["line1", "line2", "line3", ""];
    assert EstimateTokens(lines[0]) == 2 && EstimateTokens(lines[1]) == 2;
    assert EstimateTokens(lines[2]) == 2 && EstimateTokens(lines[3]) == 0;
  }

  /** Three lines and a final newline: four lines, within budget, not all whitespace. */
  lemma ThreeLines(content: string)
    requires content == "line1" + "\n" + ("line2" + "\n" + ("line3" + "\n" + ""))
    ensures |Lines.Split(content)| == 4
    ensures CostBetween(Lines.Split(content), 0, |Lines.Split(content)|) <= ChunkBudget
    ensures !Lines.IsBlank(content)
  {
    ThreeLinesSplit(content);
    ThreeLinesCost();
    assert content[0] == 'l';
  }

  /** `index.ts` holding a small text of four lines, not all whitespace, with no user id given. */
  lemma SmallIndexTs(repoPath: string, content: string)
    requires |Lines.Split(content)| == 4
    requires CostBetween(Lines.Split(content), 0, |Lines.Split(content)|) <= ChunkBudget
    requires !Lines.IsBlank(content)
    ensures AllRecords(UserIdOrDefault(None), FilesOf(repoPath, [File("index.ts", content)]))
         == [Record("user_123", JoinPath(repoPath, "index.ts"), "ts", 0, 0, 3, content + "\n")]
  {
    IndexTsName();
    OneSmallFile(repoPath, "index.ts", content, DefaultUserId);
  }

  /**
   * `fun` on a repository whose only file is `index.ts` with three lines
   * and a final newline, with no user id given: one record, reaching line 3
   * (the empty line after the last newline), labelled with the default
   * user and language `ts`.
   */
  lemma IndexTsExample(repoPath: string, content: string)
    requires content == "line1" + "\n" + ("line2" + "\n" + ("line3" + "\n" + ""))
    ensures AllRecords(UserIdOrDefault(None), FilesOf(repoPath, [File("index.ts", content)]))
         == [Record("user_123", JoinPath(repoPath, "index.ts"), "ts", 0, 0, 3, content + "\n")]
  {
    ThreeLines(content);
    SmallIndexTs(repoPath, content);
  }
}
