/**
 * Loading uploaded files into documents: `ConversationChainManager.get_docs`
 * in backend/main.py.
 *
 * Each path is dispatched on its suffix (`.txt`, `.csv`, `.docx`, `.pdf`, in
 * that order), the loader's output is appended to an accumulator, and the
 * file is deleted. Unknown suffixes contribute nothing. The loaders and the
 * text splitter are foreign libraries; they are parameters here (`Loaders`).
 * The file system is a map from path to bytes held by a `Disk`.
 */
module DocumentLoading {
  import opened Outcomes

  type Path = string
  type Bytes = seq<bv8>
  type FileMap = map<Path, Bytes>

  /** A langchain document: page content and the path it was loaded from. */
  datatype Document = Document(content: string, source: Path)

  /** The four recognised file formats. */
  datatype Kind = Text | Csv | Docx | Pdf

  /** The parameters of a RecursiveCharacterTextSplitter. */
  datatype SplitterConfig = SplitterConfig(chunkSize: nat, chunkOverlap: nat)

  /** The splitter used for `.txt` and `.docx` files. */
  const TextSplitter := SplitterConfig(1000, 100)

  /**
   * The foreign loaders and splitter. Each loader sees the path and the bytes
   * stored there and either yields documents or raises (`None`).
   */
  datatype Loaders = Loaders(
    loadText: (Path, Bytes) -> Option<seq<Document>>,         // TextLoader(path).load()
    loadCsv: (Path, Bytes) -> Option<seq<Document>>,          // CSVLoader(path).load()
    loadDocx: (Path, Bytes) -> Option<seq<Document>>,         // Docx2txtLoader(path).load()
    loadAndSplitPdf: (Path, Bytes) -> Option<seq<Document>>,  // PyPDFLoader(path).load_and_split()
    splitDocuments: (SplitterConfig, seq<Document>) -> seq<Document>)

  /** Why loading stopped: a path that is not on disk, or a loader that raised. */
  datatype IngestError = FileNotFound(path: Path) | LoaderFailed(path: Path)

  /** Python's `str.endswith`: case-sensitive suffix test. */
  predicate EndsWith(s: string, suffix: string)
  {
    |suffix| <= |s| && s[|s| - |suffix|..] == suffix
  }

  function Suffix(k: Kind): string
  {
    match k
    case Text => ".txt"
    case Csv => ".csv"
    case Docx => ".docx"
    case Pdf => ".pdf"
  }

  /** The branch of the dispatch a path takes; `None` when no branch matches. */
  function KindOf(path: Path): Option<Kind>
  {
    if EndsWith(path, ".txt") then Some(Text)
    else if EndsWith(path, ".csv") then Some(Csv)
    else if EndsWith(path, ".docx") then Some(Docx)
    else if EndsWith(path, ".pdf") then Some(Pdf)
    else None
  }

  lemma LastCharOfSuffix(s: string, suffix: string)
    requires EndsWith(s, suffix) && |suffix| > 0
    ensures s[|s| - 1] == suffix[|suffix| - 1]
  {
    assert s[|s| - |suffix|..][|suffix| - 1] == s[|s| - 1];
  }

  /** The four suffixes end in different characters: t, v, x and f. */
  lemma SuffixesEndApart(k: Kind, k': Kind)
    ensures Suffix(k)[|Suffix(k)| - 1] == Suffix(k')[|Suffix(k')| - 1] ==> k == k'
  {
  }

  /** The branch `KindOf` picks is one whose suffix the path ends with, and `None` means none matches. */
  lemma KindOfSound(path: Path)
    ensures KindOf(path).Some? ==> EndsWith(path, Suffix(KindOf(path).value))
    ensures KindOf(path) == None ==> forall k :: !EndsWith(path, Suffix(k))
  {
  }

  /**
   * A path takes the branch of kind `k` exactly when it ends with that kind's
   * suffix: the four suffixes end in different characters, so at most one of
   * them matches and the order of the tests never decides the branch.
   */
  lemma {:induction false} KindOfMatchesSuffix(path: Path, k: Kind)
    ensures KindOf(path) == Some(k) <==> EndsWith(path, Suffix(k))
  {
    KindOfSound(path);
    if EndsWith(path, Suffix(k)) {
      var chosen := KindOf(path).value;
      LastCharOfSuffix(path, Suffix(k));
      LastCharOfSuffix(path, Suffix(chosen));
      SuffixesEndApart(k, chosen);
    }
  }

  /** A path takes no branch exactly when it ends with none of the four suffixes. */
  lemma {:induction false} UnknownSuffixTakesNoBranch(path: Path)
    ensures KindOf(path) == None <==> forall k :: !EndsWith(path, Suffix(k))
  {
    if KindOf(path) == None {
      forall k ensures !EndsWith(path, Suffix(k)) {
        KindOfMatchesSuffix(path, k);
      }
    } else {
      KindOfMatchesSuffix(path, KindOf(path).value);
    }
  }

  /** A path whose last character ends none of the suffixes (t, v, x, f) takes no branch; case matters, so `F` is one. */
  lemma NoBranchForOtherLastChar(path: Path)
    requires |path| > 0 && path[|path| - 1] !in {'t', 'v', 'x', 'f'}
    ensures KindOf(path) == None
  {
    forall k ensures !EndsWith(path, Suffix(k)) {
      if EndsWith(path, Suffix(k)) {
        LastCharOfSuffix(path, Suffix(k));
      }
    }
    UnknownSuffixTakesNoBranch(path);
  }

  /**
   * What one branch of the dispatch yields for a file that is on disk: text and
   * Word files are split with `TextSplitter`, CSV rows are kept unsplit, PDF
   * files are split by the loader itself, and any other file yields nothing.
   */
  function Load(loaders: Loaders, path: Path, content: Bytes): (r: Option<seq<Document>>)
    ensures r.None? ==> KindOf(path).Some?
  {
    match KindOf(path)
    case None => Some([])
    case Some(k) => Branch(loaders, k, path, content)
  }

  /** The loader call of the branch for kind `k`; `None` when the loader raises. */
  function Branch(loaders: Loaders, k: Kind, path: Path, content: Bytes): Option<seq<Document>>
  {
    match k
    case Text =>
      var document := loaders.loadText(path, content);
      if document.Some? then Some(loaders.splitDocuments(TextSplitter, document.value)) else None
    case Csv => loaders.loadCsv(path, content)
    case Docx =>
      var document := loaders.loadDocx(path, content);
      if document.Some? then Some(loaders.splitDocuments(TextSplitter, document.value)) else None
    case Pdf => loaders.loadAndSplitPdf(path, content)
  }

  /** A path that is on disk and whose branch does not raise. */
  predicate Loadable(loaders: Loaders, files: FileMap, path: Path)
  {
    path in files && Load(loaders, path, files[path]).Some?
  }

  /** One iteration of the loop: the documents it adds and the disk after `os.remove`, or the error it raises. */
  datatype StepResult = Done(docs: seq<Document>, files: FileMap) | Raised(error: IngestError)

  function Step(loaders: Loaders, files: FileMap, path: Path): (r: StepResult)
    ensures r.Done? <==> Loadable(loaders, files, path)
    ensures r.Done? ==> r.files == files - {path}
    ensures r.Raised? ==> r.error == if path in files then LoaderFailed(path) else FileNotFound(path)
    ensures KindOf(path) == None && path in files ==> r == Done([], files - {path})
  {
    if path !in files then Raised(FileNotFound(path))
    else match Load(loaders, path, files[path])
      case None => Raised(LoaderFailed(path))
      case Some(docs) => Done(docs, files - {path})
  }

  /** The outcome of `get_docs` and the disk it leaves behind. */
  datatype Run = Run(outcome: Result<seq<Document>, IngestError>, files: FileMap)

  /** Puts `docs` in front of a successful run's documents; a failed run is kept as it is. */
  function Prepend(docs: seq<Document>, run: Run): Run
  {
    match run.outcome
    case Success(more) => Run(Success(docs + more), run.files)
    case Failure(_) => run
  }

  lemma PrependNothing(run: Run)
    ensures Prepend([], run) == run
  {
    if run.outcome.Success? {
      assert [] + run.outcome.value == run.outcome.value;
    }
  }

  lemma PrependTwice(first: seq<Document>, second: seq<Document>, run: Run)
    ensures Prepend(first, Prepend(second, run)) == Prepend(first + second, run)
  {
    if run.outcome.Success? {
      assert first + (second + run.outcome.value) == (first + second) + run.outcome.value;
    }
  }

  /** The reference definition of `get_docs`: the paths are processed front to back. */
  function Ingest(loaders: Loaders, files: FileMap, paths: seq<Path>): Run
    decreases |paths|
  {
    if paths == [] then Run(Success([]), files)
    else match Step(loaders, files, paths[0])
      case Raised(e) => Run(Failure(e), files)
      case Done(docs, rest) => Prepend(docs, Ingest(loaders, rest, paths[1..]))
  }

  predicate Distinct(paths: seq<Path>)
  {
    forall i, j :: 0 <= i < j < |paths| ==> paths[i] != paths[j]
  }

  /** The concatenation, in list order, of what each path's branch yields. */
  function Contributions(loaders: Loaders, files: FileMap, paths: seq<Path>): seq<Document>
    requires forall i :: 0 <= i < |paths| ==> Loadable(loaders, files, paths[i])
  {
    if paths == [] then []
    else
      assert Loadable(loaders, files, paths[0]);
      Load(loaders, paths[0], files[paths[0]]).value + Contributions(loaders, files, paths[1..])
  }

  lemma {:induction false} ContributionsOnlyReadListedFiles(loaders: Loaders, files: FileMap, files': FileMap, paths: seq<Path>)
    requires forall i :: 0 <= i < |paths| ==> Loadable(loaders, files, paths[i])
    requires forall i :: 0 <= i < |paths| ==> paths[i] in files && paths[i] in files' && files'[paths[i]] == files[paths[i]]
    ensures forall i :: 0 <= i < |paths| ==> Loadable(loaders, files', paths[i])
    ensures Contributions(loaders, files', paths) == Contributions(loaders, files, paths)
  {
    if paths != [] {
      ContributionsOnlyReadListedFiles(loaders, files, files', paths[1..]);
    }
  }

  /**
   * When the paths are distinct, on disk and every branch succeeds, `get_docs`
   * returns each path's documents concatenated in input order and deletes
   * exactly the listed files.
   */
  lemma {:induction false} IngestInOrder(loaders: Loaders, files: FileMap, paths: seq<Path>)
    requires Distinct(paths)
    requires forall i :: 0 <= i < |paths| ==> Loadable(loaders, files, paths[i])
    ensures Ingest(loaders, files, paths)
         == Run(Success(Contributions(loaders, files, paths)), files - (set p | p in paths))
  {
    if paths != [] {
      var rest := files - {paths[0]};
      assert forall i :: 0 <= i < |paths[1..]| ==> paths[1..][i] == paths[i + 1];
      ContributionsOnlyReadListedFiles(loaders, files, rest, paths[1..]);
      IngestInOrder(loaders, rest, paths[1..]);
      assert rest - (set p | p in paths[1..]) == files - (set p | p in paths);
    }
  }

  /**
   * A path that raises stops the loop: the documents gathered so far are lost,
   * the files before it have been deleted, and neither it nor any later file is
   * deleted (there is no `finally` around the loader).
   */
  lemma {:induction false} IngestStopsAtFirstFailure(loaders: Loaders, files: FileMap, paths: seq<Path>, k: nat)
    requires Distinct(paths) && k < |paths|
    requires forall i :: 0 <= i < k ==> Loadable(loaders, files, paths[i])
    requires !Loadable(loaders, files, paths[k])
    ensures Ingest(loaders, files, paths).outcome
         == Failure(if paths[k] in files then LoaderFailed(paths[k]) else FileNotFound(paths[k]))
    ensures Ingest(loaders, files, paths).files == files - (set p | p in paths[..k])
  {
    if k == 0 {
      assert (set p | p in paths[..0]) == {};
    } else {
      var rest, tail := files - {paths[0]}, paths[1..];
      IngestAfterLoadable(loaders, files, paths);
      DropFirstLoaded(loaders, files, paths, k);
      IngestStopsAtFirstFailure(loaders, rest, tail, k - 1);
      assert paths[..k] == [paths[0]] + tail[..k - 1];
      DeletedPrefix(files, paths[0], tail[..k - 1], paths[..k]);
    }
  }

  /** One unfolding of `Ingest` past a first path that loads. */
  lemma IngestAfterLoadable(loaders: Loaders, files: FileMap, paths: seq<Path>)
    requires paths != [] && Loadable(loaders, files, paths[0])
    ensures Ingest(loaders, files, paths)
         == Prepend(Load(loaders, paths[0], files[paths[0]]).value, Ingest(loaders, files - {paths[0]}, paths[1..]))
    ensures Ingest(loaders, files - {paths[0]}, paths[1..]).outcome.Failure? ==>
              Ingest(loaders, files, paths) == Ingest(loaders, files - {paths[0]}, paths[1..])
  {
  }

  /** Deleting the first path and then the ones after it deletes them all. */
  lemma DeletedPrefix(files: FileMap, first: Path, after: seq<Path>, all: seq<Path>)
    requires all == [first] + after
    ensures files - {first} - (set p | p in after) == files - (set p | p in all)
  {
    assert (set p | p in all) == {first} + (set p | p in after);
  }

  /** Deleting the first of distinct paths leaves every later path as loadable as it was. */
  lemma DropFirstLoaded(loaders: Loaders, files: FileMap, paths: seq<Path>, k: nat)
    requires Distinct(paths) && 0 < k < |paths|
    requires forall i :: 0 <= i < k ==> Loadable(loaders, files, paths[i])
    requires !Loadable(loaders, files, paths[k])
    ensures Distinct(paths[1..])
    ensures forall i :: 0 <= i < k - 1 ==> Loadable(loaders, files - {paths[0]}, paths[1..][i])
    ensures !Loadable(loaders, files - {paths[0]}, paths[1..][k - 1])
  {
    var rest, tail := files - {paths[0]}, paths[1..];
    forall i | 0 <= i < |tail|
      ensures tail[i] == paths[i + 1] && tail[i] != paths[0]
      ensures tail[i] in rest <==> tail[i] in files
      ensures tail[i] in rest ==> rest[tail[i]] == files[tail[i]]
    {
    }
    forall i | 0 <= i < k - 1
      ensures Loadable(loaders, rest, tail[i])
    {
      assert Loadable(loaders, files, paths[i + 1]);
    }
  }

  /**
   * Whatever happens, `get_docs` only deletes files: the disk afterwards is the
   * old disk less some of the listed paths, and on success less all of them.
   */
  lemma {:induction false} IngestOnlyDeletesListedFiles(loaders: Loaders, files: FileMap, paths: seq<Path>)
    ensures Ingest(loaders, files, paths).files.Keys <= files.Keys
    ensures forall p :: p in Ingest(loaders, files, paths).files ==> Ingest(loaders, files, paths).files[p] == files[p]
    ensures files.Keys - (set p | p in paths) <= Ingest(loaders, files, paths).files.Keys
    ensures Ingest(loaders, files, paths).outcome.Success? ==>
              Ingest(loaders, files, paths).files.Keys == files.Keys - (set p | p in paths)
  {
    if paths != [] {
      match Step(loaders, files, paths[0])
      case Raised(_) =>
      case Done(_, rest) =>
        IngestOnlyDeletesListedFiles(loaders, rest, paths[1..]);
        assert (set p | p in paths) == {paths[0]} + (set p | p in paths[1..]);
    }
  }

  /** A listed path that is not on disk when its turn comes makes the run fail. */
  lemma {:induction false} MissingPathFails(loaders: Loaders, files: FileMap, paths: seq<Path>, j: nat)
    requires j < |paths| && paths[j] !in files
    ensures Ingest(loaders, files, paths).outcome.Failure?
  {
    if j > 0 {
      match Step(loaders, files, paths[0])
      case Raised(_) =>
      case Done(_, rest) =>
        MissingPathFails(loaders, rest, paths[1..], j - 1);
    }
  }

  /**
   * A path listed twice fails the whole run: its first occurrence deletes the
   * file, so the second finds nothing on disk.
   */
  lemma {:induction false} RepeatedPathFails(loaders: Loaders, files: FileMap, paths: seq<Path>, i: nat, j: nat)
    requires i < j < |paths| && paths[i] == paths[j]
    ensures Ingest(loaders, files, paths).outcome.Failure?
  {
    match Step(loaders, files, paths[0])
    case Raised(_) =>
    case Done(_, rest) =>
      if i == 0 {
        MissingPathFails(loaders, rest, paths[1..], j - 1);
      } else {
        RepeatedPathFails(loaders, rest, paths[1..], i - 1, j - 1);
      }
  }

  /** The file system that `get_docs` reads and deletes from. */
  class Disk {
    var files: FileMap

    constructor (initial: FileMap)
      ensures files == initial
    {
      files := initial;
    }
  }

  /**
   * The body of one iteration of `get_docs` up to the `os.remove`: the
   * `if`/`elif` chain on the path's suffix, calling the matching loader.
   * Whatever the order of the tests, a path ending with a kind's suffix gets
   * that kind's branch, and a path ending with none of them gets nothing.
   */
  method LoadByExtension(loaders: Loaders, path: Path, content: Bytes) returns (loaded: Option<seq<Document>>)
    ensures forall k :: EndsWith(path, Suffix(k)) ==> loaded == Branch(loaders, k, path, content)
    ensures (forall k :: !EndsWith(path, Suffix(k))) ==> loaded == Some([])
    ensures loaded == Load(loaders, path, content)
  {
    if EndsWith(path, ".txt") {
      var document := loaders.loadText(path, content);
      loaded := if document.Some? then Some(loaders.splitDocuments(TextSplitter, document.value)) else None;
    } else if EndsWith(path, ".csv") {
      loaded := loaders.loadCsv(path, content);
    } else if EndsWith(path, ".docx") {
      var document := loaders.loadDocx(path, content);
      loaded := if document.Some? then Some(loaders.splitDocuments(TextSplitter, document.value)) else None;
    } else if EndsWith(path, ".pdf") {
      loaded := loaders.loadAndSplitPdf(path, content);
    } else {
      loaded := Some([]);
    }
    UnknownSuffixTakesNoBranch(path);
    forall k | EndsWith(path, Suffix(k))
      ensures KindOf(path) == Some(k)
    {
      KindOfMatchesSuffix(path, k);
    }
  }

  /**
   * `get_docs`: walks the paths in order, dispatches each on its suffix,
   * extends the accumulator with the branch's documents and deletes the file.
   * A file that is missing raises (in the loader for a recognised suffix, in
   * `os.remove` otherwise), as does a loader that fails.
   */
  method GetDocs(loaders: Loaders, paths: seq<Path>, disk: Disk) returns (r: Result<seq<Document>, IngestError>)
    modifies disk
    ensures r == Ingest(loaders, old(disk.files), paths).outcome
    ensures disk.files == Ingest(loaders, old(disk.files), paths).files
  {
    var docs: seq<Document> := [];
    var i := 0;
    assert paths[i..] == paths;
    PrependNothing(Ingest(loaders, disk.files, paths));
    while i < |paths|
      invariant 0 <= i <= |paths|
      invariant Prepend(docs, Ingest(loaders, disk.files, paths[i..])) == Ingest(loaders, old(disk.files), paths)
    {
      var path := paths[i];
      assert paths[i..][0] == path && paths[i..][1..] == paths[i + 1..];
      if path !in disk.files {
        r := Failure(FileNotFound(path));
        return;
      }
      var loaded := LoadByExtension(loaders, path, disk.files[path]);
      if loaded.None? {
        r := Failure(LoaderFailed(path));
        return;
      }
      ghost var later := Ingest(loaders, disk.files - {path}, paths[i + 1..]);
      assert Ingest(loaders, disk.files, paths[i..]) == Prepend(loaded.value, later);
      PrependTwice(docs, loaded.value, later);
      docs := docs + loaded.value;
      disk.files := disk.files - {path};
      i := i + 1;
    }
    assert paths[i..] == [];
    assert docs + [] == docs;
    r := Success(docs);
  }
}
