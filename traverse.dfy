/**
 * `traverseFiles` of src/utils/traverse.ts: a depth-first walk of a
 * directory tree that collects the files worth indexing and counts what
 * it saw.
 *
 * The file system is an in-memory tree of entries: `readdir` of a
 * directory is its `children`, in the order given, and `readFile` of a
 * file is its `content`. A directory whose name is in `SkippedDirNames`
 * is counted and not entered. Every file is counted; it is kept when its
 * name is not in `SkippedFileNames` and its extension is in
 * `AllowedExtensions`, and counted as skipped otherwise. Other entries
 * (links, sockets, ...) are passed over without being counted.
 *
 * The walk itself is the `Walker` class, whose fields the recursive
 * `Walk` updates in place; `FilesOf`, `TotalFilesOf`, `SkippedFilesOf` and
 * `SkippedDirsOf` state what it computes.
 */
module Traverse {
  import opened Paths

  /** Directory names that are never entered. */
  const SkippedDirNames: set<string> := {
    "node_modules", ".git", "dist", "build", ".next", "out", "coverage",
    ".turbo", ".vercel", ".cache", "logs", "log", ".expo", ".idea", ".vscode",
    "storybook-static", ".firebase", "cypress", "public", "tmp", "temp"
  }

  /** File names that are never read. */
  const SkippedFileNames: set<string> := {
    "package-lock.json", "yarn.lock", "pnpm-lock.yaml", "bun.lockb", ".env",
    ".env.local", ".env.production", "README.md", "LICENSE", "CHANGELOG.md",
    "tsconfig.json", "next.config.js", "vite.config.ts", "tsconfig.node.json",
    "tsconfig.app.json", "webpack.config.js", "eslint.config.js", ".gitignore",
    ".eslintrc", ".prettierrc", ".editorconfig", ".npmrc"
  }

  /** The extensions of files that are read. */
  const AllowedExtensions: set<string> := {
    ".js", ".jsx", ".ts", ".tsx", ".json", ".html", ".css", ".scss", ".md",
    ".py", ".php", ".rb", ".sh", ".bat",
    ".cpp", ".cc", ".cxx", ".c", ".h", ".hpp", ".rs", ".go", ".java", ".kt", ".kts",
    ".xml", ".toml", ".yml", ".yaml", ".ini"
  }

  /** A directory entry as `readdir` reports it, with what lies beneath. */
  datatype Entry =
    | Dir(name: string, children: seq<Entry>)
    | File(name: string, content: string)
    | Other(name: string)

  /** A file that was read: its joined path and its text. */
  datatype FileEntry = FileEntry(filePath: string, content: string)

  datatype Stats = Stats(totalFiles: nat, skippedFiles: nat, skippedDirs: nat)

  datatype TraverseResult = TraverseResult(files: seq<FileEntry>, stats: Stats)

  /** A file is read when its name is not excluded and its extension is allowed. */
  predicate KeepFile(name: string)
  {
    name !in SkippedFileNames && Extname(name) in AllowedExtensions
  }

  // ---------------------------------------------------------------------
  // What the walk computes
  // ---------------------------------------------------------------------

  /** The files read from `entries` of the directory at `path`, in walk order. */
  function FilesOf(path: string, entries: seq<Entry>): seq<FileEntry>
    decreases entries
  {
    if entries == [] then []
    else FilesOf(path, entries[..|entries| - 1]) + EntryFilesOf(path, entries[|entries| - 1])
  }

  function EntryFilesOf(path: string, e: Entry): seq<FileEntry>
    decreases e
  {
    match e
    case Dir(name, children) =>
      if name in SkippedDirNames then [] else FilesOf(JoinPath(path, name), children)
    case File(name, content) =>
      if KeepFile(name) then [FileEntry(JoinPath(path, name), content)] else []
    case Other(_) => []
  }

  /** The number of files met under `entries`, outside skipped directories. */
  function TotalFilesOf(entries: seq<Entry>): nat
    decreases entries
  {
    if entries == [] then 0
    else TotalFilesOf(entries[..|entries| - 1]) + EntryTotalFilesOf(entries[|entries| - 1])
  }

  function EntryTotalFilesOf(e: Entry): nat
    decreases e
  {
    match e
    case Dir(name, children) => if name in SkippedDirNames then 0 else TotalFilesOf(children)
    case File(_, _) => 1
    case Other(_) => 0
  }

  /** The number of files met under `entries` and not read. */
  function SkippedFilesOf(entries: seq<Entry>): nat
    decreases entries
  {
    if entries == [] then 0
    else SkippedFilesOf(entries[..|entries| - 1]) + EntrySkippedFilesOf(entries[|entries| - 1])
  }

  function EntrySkippedFilesOf(e: Entry): nat
    decreases e
  {
    match e
    case Dir(name, children) => if name in SkippedDirNames then 0 else SkippedFilesOf(children)
    case File(name, _) => if KeepFile(name) then 0 else 1
    case Other(_) => 0
  }

  /** The number of skipped directories met under `entries`. */
  function SkippedDirsOf(entries: seq<Entry>): nat
    decreases entries
  {
    if entries == [] then 0
    else SkippedDirsOf(entries[..|entries| - 1]) + EntrySkippedDirsOf(entries[|entries| - 1])
  }

  function EntrySkippedDirsOf(e: Entry): nat
    decreases e
  {
    match e
    case Dir(name, children) => if name in SkippedDirNames then 1 else SkippedDirsOf(children)
    case File(_, _) => 0
    case Other(_) => 0
  }

  lemma AppendAssoc<T>(a: seq<T>, b: seq<T>, c: seq<T>)
    ensures a + (b + c) == (a + b) + c
  {
  }

  /** One more entry of a listing adds that entry's share to each quantity. */
  lemma PrefixStep(path: string, entries: seq<Entry>, i: nat)
    requires i < |entries|
    ensures FilesOf(path, entries[..i + 1]) == FilesOf(path, entries[..i]) + EntryFilesOf(path, entries[i])
    ensures TotalFilesOf(entries[..i + 1]) == TotalFilesOf(entries[..i]) + EntryTotalFilesOf(entries[i])
    ensures SkippedFilesOf(entries[..i + 1]) == SkippedFilesOf(entries[..i]) + EntrySkippedFilesOf(entries[i])
    ensures SkippedDirsOf(entries[..i + 1]) == SkippedDirsOf(entries[..i]) + EntrySkippedDirsOf(entries[i])
  {
    assert entries[..i + 1][..i] == entries[..i];
  }

  // ---------------------------------------------------------------------
  // The walk
  // ---------------------------------------------------------------------

  /** The shared `result` of `traverseFiles`, which every level of `walk` updates. */
  class Walker {
    var files: seq<FileEntry>
    var totalFiles: nat
    var skippedFiles: nat
    var skippedDirs: nat

    /** Every file counted is either read or skipped. */
    ghost predicate Valid()
      reads this
    {
      |files| + skippedFiles == totalFiles
    }

    constructor ()
      ensures Valid()
      ensures files == [] && totalFiles == 0 && skippedFiles == 0 && skippedDirs == 0
    {
      files := [];
      totalFiles := 0;
      skippedFiles := 0;
      skippedDirs := 0;
    }

    /** `walk(currentPath)`, where `entries` is what `readdir(currentPath)` lists. */
    method Walk(currentPath: string, entries: seq<Entry>)
      requires Valid()
      modifies this
      ensures Valid()
      ensures files == old(files) + FilesOf(currentPath, entries)
      ensures totalFiles == old(totalFiles) + TotalFilesOf(entries)
      ensures skippedFiles == old(skippedFiles) + SkippedFilesOf(entries)
      ensures skippedDirs == old(skippedDirs) + SkippedDirsOf(entries)
      decreases entries
    {
      for i := 0 to |entries|
        invariant Valid()
        invariant files == old(files) + FilesOf(currentPath, entries[..i])
        invariant totalFiles == old(totalFiles) + TotalFilesOf(entries[..i])
        invariant skippedFiles == old(skippedFiles) + SkippedFilesOf(entries[..i])
        invariant skippedDirs == old(skippedDirs) + SkippedDirsOf(entries[..i])
      {
        var entry := entries[i];
        var fullPath := JoinPath(currentPath, entry.name);
        ghost var before := files;
        PrefixStep(currentPath, entries, i);
        match entry {
          case Dir(name, children) =>
            if name in SkippedDirNames {
              skippedDirs := skippedDirs + 1;
            } else {
              Walk(fullPath, children);
            }
          case File(name, content) =>
            totalFiles := totalFiles + 1;
            if name in SkippedFileNames {
              skippedFiles := skippedFiles + 1;
            } else {
              var ext := Extname(name);
              if ext !in AllowedExtensions {
                skippedFiles := skippedFiles + 1;
              } else {
                files := files + [FileEntry(fullPath, content)];
              }
            }
          case Other(_) =>
        }
        assert files == before + EntryFilesOf(currentPath, entry);
        AppendAssoc(old(files), FilesOf(currentPath, entries[..i]), EntryFilesOf(currentPath, entry));
      }
      assert entries[..|entries|] == entries;
    }
  }

  /** `traverseFiles(dir)`, where `entries` is what `readdir(dir)` lists. */
  method TraverseFiles(dir: string, entries: seq<Entry>) returns (r: TraverseResult)
    ensures r.files == FilesOf(dir, entries)
    ensures r.stats == Stats(TotalFilesOf(entries), SkippedFilesOf(entries), SkippedDirsOf(entries))
    ensures |r.files| + r.stats.skippedFiles == r.stats.totalFiles
  {
    var w := new Walker();
    w.Walk(dir, entries);
    r := TraverseResult(w.files, Stats(w.totalFiles, w.skippedFiles, w.skippedDirs));
  }

  // ---------------------------------------------------------------------
  // What the walk promises
  // ---------------------------------------------------------------------

  /** Every file counted under `entries` is either read or counted as skipped. */
  lemma {:induction false} Conservation(path: string, entries: seq<Entry>)
    ensures |FilesOf(path, entries)| + SkippedFilesOf(entries) == TotalFilesOf(entries)
    decreases entries
  {
    if entries != [] {
      Conservation(path, entries[..|entries| - 1]);
      EntryConservation(path, entries[|entries| - 1]);
    }
  }

  lemma {:induction false} EntryConservation(path: string, e: Entry)
    ensures |EntryFilesOf(path, e)| + EntrySkippedFilesOf(e) == EntryTotalFilesOf(e)
    decreases e
  {
    match e
    case Dir(name, children) =>
      if name !in SkippedDirNames {
        Conservation(JoinPath(path, name), children);
      }
    case File(_, _) =>
    case Other(_) =>
  }

  /** A file the walk reaches: its joined path, its own name and its text. */
  datatype FileVisit = FileVisit(fullPath: string, name: string, content: string)

  /**
   * The files the walk reaches, in depth-first order: the entries in
   * listing order, a directory's files where the directory stands, and
   * nothing from a skipped directory.
   */
  function Visits(path: string, entries: seq<Entry>): seq<FileVisit>
    decreases entries
  {
    if entries == [] then []
    else Visits(path, entries[..|entries| - 1]) + EntryVisits(path, entries[|entries| - 1])
  }

  function EntryVisits(path: string, e: Entry): seq<FileVisit>
    decreases e
  {
    match e
    case Dir(name, children) =>
      if name in SkippedDirNames then [] else Visits(JoinPath(path, name), children)
    case File(name, content) => [FileVisit(JoinPath(path, name), name, content)]
    case Other(_) => []
  }

  /** The visits whose file is read, as read files, in the same order. */
  function Kept(vs: seq<FileVisit>): seq<FileEntry>
  {
    if vs == [] then []
    else
      var v := vs[|vs| - 1];
      Kept(vs[..|vs| - 1]) + (if KeepFile(v.name) then [FileEntry(v.fullPath, v.content)] else [])
  }

  lemma {:induction false} KeptAppend(a: seq<FileVisit>, b: seq<FileVisit>)
    ensures Kept(a + b) == Kept(a) + Kept(b)
    decreases |b|
  {
    if b == [] {
      assert a + b == a;
    } else {
      assert (a + b)[..|a + b| - 1] == a + b[..|b| - 1];
      KeptAppend(a, b[..|b| - 1]);
    }
  }

  /** A visit's file is among the kept ones exactly when `KeepFile` accepts its name. */
  lemma {:induction false} KeptMembership(vs: seq<FileVisit>)
    ensures forall v :: v in vs && KeepFile(v.name) ==> FileEntry(v.fullPath, v.content) in Kept(vs)
    ensures forall f :: f in Kept(vs) ==>
              exists v :: v in vs && KeepFile(v.name) && f == FileEntry(v.fullPath, v.content)
  {
    if vs != [] {
      var init := vs[..|vs| - 1];
      KeptMembership(init);
      assert vs == init + [vs[|vs| - 1]];
      forall f | f in Kept(vs)
        ensures exists v :: v in vs && KeepFile(v.name) && f == FileEntry(v.fullPath, v.content)
      {
        if f in Kept(init) {
          var v :| v in init && KeepFile(v.name) && f == FileEntry(v.fullPath, v.content);
          assert v in vs;
        } else {
          assert vs[|vs| - 1] in vs;
        }
      }
    }
  }

  /**
   * The walk against its reference: the files read are the reached files
   * that `KeepFile` accepts, in depth-first order, and every reached file
   * is counted once.
   */
  lemma {:induction false} WalkIsFilteredVisits(path: string, entries: seq<Entry>)
    ensures FilesOf(path, entries) == Kept(Visits(path, entries))
    ensures TotalFilesOf(entries) == |Visits(path, entries)|
    decreases entries
  {
    if entries != [] {
      var init := entries[..|entries| - 1];
      var last := entries[|entries| - 1];
      WalkIsFilteredVisits(path, init);
      EntryIsFilteredVisits(path, last);
      KeptAppend(Visits(path, init), EntryVisits(path, last));
    }
  }

  lemma {:induction false} EntryIsFilteredVisits(path: string, e: Entry)
    ensures EntryFilesOf(path, e) == Kept(EntryVisits(path, e))
    ensures EntryTotalFilesOf(e) == |EntryVisits(path, e)|
    decreases e
  {
    match e
    case Dir(name, children) =>
      if name !in SkippedDirNames {
        WalkIsFilteredVisits(JoinPath(path, name), children);
      }
    case File(name, content) =>
      var vs := [FileVisit(JoinPath(path, name), name, content)];
      assert vs[..0] == [];
    case Other(_) =>
  }

  /** A file is read exactly when the walk reaches it and `KeepFile` accepts its name. */
  lemma ReadIff(path: string, entries: seq<Entry>)
    ensures forall v :: v in Visits(path, entries) && KeepFile(v.name) ==>
              FileEntry(v.fullPath, v.content) in FilesOf(path, entries)
    ensures forall f :: f in FilesOf(path, entries) ==>
              exists v :: v in Visits(path, entries) && KeepFile(v.name) && f == FileEntry(v.fullPath, v.content)
  {
    WalkIsFilteredVisits(path, entries);
    KeptMembership(Visits(path, entries));
  }

  /** The files read from two runs of entries are those of the first followed by those of the second. */
  lemma {:induction false} FilesOfAppend(path: string, a: seq<Entry>, b: seq<Entry>)
    ensures FilesOf(path, a + b) == FilesOf(path, a) + FilesOf(path, b)
    decreases |b|
  {
    if b == [] {
      assert a + b == a;
    } else {
      var b', e := b[..|b| - 1], b[|b| - 1];
      assert FilesOf(path, a + b) == FilesOf(path, a + b') + EntryFilesOf(path, e) by {
        assert (a + b)[..|a + b| - 1] == a + b';
        assert (a + b)[|a + b| - 1] == e;
      }
      FilesOfAppend(path, a, b');
      AppendAssoc(FilesOf(path, a), FilesOf(path, b'), EntryFilesOf(path, e));
    }
  }

  /** The files reached in two runs of entries are those of the first followed by those of the second. */
  lemma {:induction false} VisitsAppend(path: string, a: seq<Entry>, b: seq<Entry>)
    ensures Visits(path, a + b) == Visits(path, a) + Visits(path, b)
    decreases |b|
  {
    if b == [] {
      assert a + b == a;
    } else {
      var b', e := b[..|b| - 1], b[|b| - 1];
      assert Visits(path, a + b) == Visits(path, a + b') + EntryVisits(path, e) by {
        assert (a + b)[..|a + b| - 1] == a + b';
        assert (a + b)[|a + b| - 1] == e;
      }
      VisitsAppend(path, a, b');
      AppendAssoc(Visits(path, a), Visits(path, b'), EntryVisits(path, e));
    }
  }

  /** The three counts of two runs of entries are the sums of their counts. */
  lemma {:induction false} CountsAppend(a: seq<Entry>, b: seq<Entry>)
    ensures TotalFilesOf(a + b) == TotalFilesOf(a) + TotalFilesOf(b)
    ensures SkippedFilesOf(a + b) == SkippedFilesOf(a) + SkippedFilesOf(b)
    ensures SkippedDirsOf(a + b) == SkippedDirsOf(a) + SkippedDirsOf(b)
    decreases |b|
  {
    if b == [] {
      assert a + b == a;
    } else {
      var b' := b[..|b| - 1];
      assert (a + b)[..|a + b| - 1] == a + b';
      assert (a + b)[|a + b| - 1] == b[|b| - 1];
      CountsAppend(a, b');
    }
  }

  /** A skipped directory, wherever it stands, adds one to `skippedDirs` and nothing else. */
  lemma SkippedDirNotEntered(path: string, before: seq<Entry>, after: seq<Entry>, name: string, children: seq<Entry>)
    requires name in SkippedDirNames
    ensures var es := before + [Dir(name, children)] + after;
            && FilesOf(path, es) == FilesOf(path, before + after)
            && Visits(path, es) == Visits(path, before + after)
            && TotalFilesOf(es) == TotalFilesOf(before + after)
            && SkippedFilesOf(es) == SkippedFilesOf(before + after)
            && SkippedDirsOf(es) == SkippedDirsOf(before + after) + 1
  {
    DropsOut(path, before, after, Dir(name, children));
  }

  /** An entry that is neither a directory nor a file, wherever it stands, changes nothing. */
  lemma OtherIgnored(path: string, before: seq<Entry>, after: seq<Entry>, name: string)
    ensures var es := before + [Other(name)] + after;
            && FilesOf(path, es) == FilesOf(path, before + after)
            && Visits(path, es) == Visits(path, before + after)
            && TotalFilesOf(es) == TotalFilesOf(before + after)
            && SkippedFilesOf(es) == SkippedFilesOf(before + after)
            && SkippedDirsOf(es) == SkippedDirsOf(before + after)
  {
    DropsOut(path, before, after, Other(name));
  }

  /** An entry that reaches no file adds only its own skipped-directory count. */
  lemma DropsOut(path: string, before: seq<Entry>, after: seq<Entry>, e: Entry)
    requires EntryVisits(path, e) == [] && EntryFilesOf(path, e) == []
    requires EntryTotalFilesOf(e) == 0 && EntrySkippedFilesOf(e) == 0
    ensures var es := before + [e] + after;
            && FilesOf(path, es) == FilesOf(path, before + after)
            && Visits(path, es) == Visits(path, before + after)
            && TotalFilesOf(es) == TotalFilesOf(before + after)
            && SkippedFilesOf(es) == SkippedFilesOf(before + after)
            && SkippedDirsOf(es) == SkippedDirsOf(before + after) + EntrySkippedDirsOf(e)
  {
    var mid := before + [e];
    OneEntry(path, e);
    FilesOfAppend(path, before, [e]);
    FilesOfAppend(path, mid, after);
    FilesOfAppend(path, before, after);
    VisitsAppend(path, before, [e]);
    VisitsAppend(path, mid, after);
    VisitsAppend(path, before, after);
    CountsAppend(before, [e]);
    CountsAppend(mid, after);
    CountsAppend(before, after);
    assert FilesOf(path, mid) == FilesOf(path, before);
    assert Visits(path, mid) == Visits(path, before);
  }

  /** A listing of one entry has just that entry's share of everything. */
  lemma OneEntry(path: string, e: Entry)
    ensures FilesOf(path, [e]) == EntryFilesOf(path, e)
    ensures Visits(path, [e]) == EntryVisits(path, e)
    ensures TotalFilesOf([e]) == EntryTotalFilesOf(e)
    ensures SkippedFilesOf([e]) == EntrySkippedFilesOf(e)
    ensures SkippedDirsOf([e]) == EntrySkippedDirsOf(e)
  {
    assert [e][..0] == [];
  }

  /** The name check comes first: `README.md` has an allowed extension and is still skipped. */
  lemma ReadmeSkipped(path: string, content: string)
    ensures Extname("README.md") == ".md" && ".md" in AllowedExtensions
    ensures !KeepFile("README.md")
    ensures var es := [File("README.md", content)];
            FilesOf(path, es) == [] && TotalFilesOf(es) == 1 && SkippedFilesOf(es) == 1
  {
    ExtnameOfName("README", "md");
    assert "README" + "." + "md" == "README.md";
    OneEntry(path, File("README.md", content));
  }

  /** Entry names as `readdir` gives them: non-empty and without `/`, at every depth. */
  predicate WellNamed(entries: seq<Entry>)
    decreases entries
  {
    forall k :: 0 <= k < |entries| ==> EntryWellNamed(entries[k])
  }

  predicate EntryWellNamed(e: Entry)
    decreases e
  {
    e.name != "" && '/' !in e.name && (e.Dir? ==> WellNamed(e.children))
  }

  /** Every file read has an allowed extension, so its path ends in one. */
  lemma {:induction false} ReadFilesHaveAllowedExtensions(path: string, entries: seq<Entry>)
    requires WellNamed(entries)
    ensures forall f :: f in FilesOf(path, entries) ==> Extname(f.filePath) in AllowedExtensions
    decreases entries
  {
    if entries != [] {
      var init := entries[..|entries| - 1];
      assert WellNamed(init) by {
        forall k | 0 <= k < |init|
          ensures EntryWellNamed(init[k])
        {
          assert init[k] == entries[k];
        }
      }
      ReadFilesHaveAllowedExtensions(path, init);
      EntryReadFilesHaveAllowedExtensions(path, entries[|entries| - 1]);
    }
  }

  lemma {:induction false} EntryReadFilesHaveAllowedExtensions(path: string, e: Entry)
    requires EntryWellNamed(e)
    ensures forall f :: f in EntryFilesOf(path, e) ==> Extname(f.filePath) in AllowedExtensions
    decreases e
  {
    match e
    case Dir(name, children) =>
      if name !in SkippedDirNames {
        ReadFilesHaveAllowedExtensions(JoinPath(path, name), children);
      }
    case File(name, content) =>
      ExtnameOfJoin(path, name);
    case Other(_) =>
  }
}
