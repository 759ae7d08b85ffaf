/**
 * The process-wide conversation chain manager of backend/main.py and the two
 * routes that use it.
 *
 * `ConversationChainManager` holds one field that matters, the conversation
 * chain: absent until the first successful upload, afterwards the chain built
 * from the latest upload. A query takes the fallback path (the model answers
 * the query behind a fixed instruction) while there is no chain, and the
 * retrieval path (the chain answers and records the turn in its memory) once
 * there is one. The embedding service, the vector store and the language
 * model are foreign; they are parameters here (`Services`).
 */
module ChainManager {
  import opened Outcomes
  import opened DocumentLoading
  import FileUpload

  /** The vector store and retriever built from one upload's documents. */
  datatype VectorStore = VectorStore(docs: seq<Document>)

  /** One exchange kept in a conversation buffer memory. */
  datatype Turn = Turn(question: string, answer: string)

  /** A conversational retrieval chain: the store it retrieves from and its chat memory. */
  datatype Chain = Chain(store: VectorStore, memory: seq<Turn>)

  /** The foreign services the manager calls; `None` and `false` stand for a call that raised. */
  datatype Services = Services(
    loaders: Loaders,
    embedAll: seq<Document> -> bool,                        // embedding the documents into a new store succeeds
    complete: string -> Option<string>,                     // llm_model.invoke(prompt).content
    chainAnswer: (VectorStore, seq<Turn>, string) -> Option<string>)  // chain.invoke(query)["answer"]

  /** The instruction put in front of a query on the fallback path. */
  const FallbackInstruction := "Answer the question and also ask the user to upload files to ask questions from the files.\n"

  /** The prompt of the fallback path: exactly the instruction followed by the query. */
  function FallbackPrompt(query: string): (prompt: string)
    ensures |prompt| == |FallbackInstruction| + |query|
    ensures prompt[..|FallbackInstruction|] == FallbackInstruction
    ensures prompt[|FallbackInstruction|..] == query
  {
    FallbackInstruction + query
  }

  datatype UploadError = IngestFailed(cause: IngestError) | IndexBuildFailed

  datatype PredictError = ModelFailed

  class ConversationChainManager {
    var conversationChain: Option<Chain>
    var services: Services

    /** Allocation by `__new__` followed by `__init__`. */
    constructor (services: Services)
      ensures conversationChain == None && this.services == services
    {
      conversationChain := None;
      this.services := services;
    }

    /**
     * `__init__`, which Python runs on every construction, also when `__new__`
     * hands back the existing instance: it forgets the chain.
     */
    method Init(services: Services)
      modifies this
      ensures conversationChain == None && this.services == services
    {
      conversationChain := None;
      this.services := services;
    }

    /**
     * `create_conversational_chain`: loads the documents (deleting the files),
     * builds a store from them and installs a new chain with an empty memory,
     * replacing the old chain and its memory wholesale. If loading or building
     * raises, the old chain stays.
     */
    method CreateConversationalChain(paths: seq<Path>, disk: Disk) returns (r: Result<(), UploadError>)
      modifies this`conversationChain, disk
      ensures disk.files == Ingest(services.loaders, old(disk.files), paths).files
      ensures match Ingest(services.loaders, old(disk.files), paths).outcome
        case Failure(e) =>
          r == Failure(IngestFailed(e)) && conversationChain == old(conversationChain)
        case Success(docs) =>
          if services.embedAll(docs)
          then r == Success(()) && conversationChain == Some(Chain(VectorStore(docs), []))
          else r == Failure(IndexBuildFailed) && conversationChain == old(conversationChain)
      ensures old(conversationChain).Some? ==> conversationChain.Some?
    {
      var docs := GetDocs(services.loaders, paths, disk);
      if docs.Failure? {
        r := Failure(IngestFailed(docs.error));
        return;
      }
      var memory: seq<Turn> := [];
      if !services.embedAll(docs.value) {
        r := Failure(IndexBuildFailed);
        return;
      }
      conversationChain := Some(Chain(VectorStore(docs.value), memory));
      r := Success(());
    }
  }

  /**
   * The class object, whose `_instance` attribute makes every construction
   * return the same manager.
   */
  class ManagerClass {
    var instance: ConversationChainManager?

    constructor ()
      ensures instance == null
    {
      instance := null;
    }

    /** `ConversationChainManager()`: `__new__` then `__init__`. */
    method Construct(services: Services) returns (m: ConversationChainManager)
      modifies this, instance
      ensures old(instance) != null ==> m == old(instance)
      ensures old(instance) == null ==> fresh(m)
      ensures instance == m
      ensures m.conversationChain == None && m.services == services
    {
      if instance == null {
        instance := new ConversationChainManager(services);
      }
      m := instance;
      m.Init(services);
    }
  }

  /**
   * The `/predict/` route. Without a chain the model answers the fallback
   * prompt and nothing is recorded; with a chain, the chain answers from its
   * store and memory and the turn is appended to its memory. A model call
   * that raises changes nothing.
   */
  method Predict(manager: ConversationChainManager, query: string) returns (r: Result<string, PredictError>)
    modifies manager`conversationChain
    ensures old(manager.conversationChain).None? ==>
      && manager.conversationChain == None
      && r == match manager.services.complete(FallbackPrompt(query))
              case Some(answer) => Success(answer)
              case None => Failure(ModelFailed)
    ensures old(manager.conversationChain).Some? ==>
      var chain := old(manager.conversationChain).value;
      match manager.services.chainAnswer(chain.store, chain.memory, query)
      case Some(answer) =>
        r == Success(answer) && manager.conversationChain == Some(Chain(chain.store, chain.memory + [Turn(query, answer)]))
      case None =>
        r == Failure(ModelFailed) && manager.conversationChain == old(manager.conversationChain)
  {
    if manager.conversationChain.None? {
      var response := manager.services.complete(FallbackInstruction + query);
      r := if response.Some? then Success(response.value) else Failure(ModelFailed);
    } else {
      var chain := manager.conversationChain.value;
      var response := manager.services.chainAnswer(chain.store, chain.memory, query);
      if response.Some? {
        manager.conversationChain := Some(Chain(chain.store, chain.memory + [Turn(query, response.value)]));
        r := Success(response.value);
      } else {
        r := Failure(ModelFailed);
      }
    }
  }

  /** A file posted to `/upload_files/`. */
  datatype UploadFile = UploadFile(filename: string, content: Bytes)

  const UploadFolder := "uploads"

  /** Where an uploaded file is staged: the upload folder, a slash, the file name. */
  function UploadPath(filename: string): (path: Path)
    ensures |path| == |UploadFolder| + 1 + |filename|
    ensures path[..|UploadFolder| + 1] == UploadFolder + "/"
    ensures path[|UploadFolder| + 1..] == filename
  {
    UploadFolder + "/" + filename
  }

  /** Distinct file names are staged at distinct paths. */
  lemma {:induction false} UploadPathInjective(a: string, b: string)
    ensures UploadPath(a) == UploadPath(b) <==> a == b
  {
    if UploadPath(a) == UploadPath(b) {
      assert a == UploadPath(a)[|UploadFolder| + 1..];
    }
  }

  /**
   * The form and the server disagree on letter case. The form lowercases the
   * extension before checking it, but the server's suffix tests are
   * case-sensitive: a file whose name ends in `.PDF` (such as `Report.PDF`)
   * passes the form and is then staged, read by no loader and deleted,
   * contributing no documents.
   */
  lemma UpperCaseSuffixAcceptedButNotLoaded(loaders: Loaders, name: string, size: nat, content: Bytes)
    requires |name| >= 4 && name[|name| - 4..] == ".PDF" && size <= FileUpload.MaxFileSize
    ensures FileUpload.Check(FileUpload.File(name, size)) == FileUpload.Accept
    ensures KindOf(UploadPath(name)) == None
    ensures Load(loaders, UploadPath(name), content) == Some([])
  {
    FileUpload.UpperCasePdfAccepted(name, size);
    var path := UploadPath(name);
    assert path[|path| - 1] == name[|name| - 1] == 'F';
    NoBranchForOtherLastChar(path);
  }

  function UploadPaths(files: seq<UploadFile>): (paths: seq<Path>)
    ensures |paths| == |files|
    ensures forall i :: 0 <= i < |files| ==> paths[i] == UploadPath(files[i].filename)
  {
    if files == [] then [] else [UploadPath(files[0].filename)] + UploadPaths(files[1..])
  }

  /** The disk after writing the files in order; a later file with the same name overwrites an earlier one. */
  function Saved(files: FileMap, uploads: seq<UploadFile>): FileMap
    decreases |uploads|
  {
    if uploads == [] then files
    else Saved(files[UploadPath(uploads[0].filename) := uploads[0].content], uploads[1..])
  }

  /** Writing the uploads adds their staged paths and leaves every other path as it was. */
  lemma {:induction false} SavedOnlyWritesStagedPaths(files: FileMap, uploads: seq<UploadFile>)
    ensures Saved(files, uploads).Keys == files.Keys + (set p | p in UploadPaths(uploads))
    ensures forall p :: p in files && p !in UploadPaths(uploads) ==> Saved(files, uploads)[p] == files[p]
    decreases |uploads|
  {
    if uploads != [] {
      var next := files[UploadPath(uploads[0].filename) := uploads[0].content];
      SavedOnlyWritesStagedPaths(next, uploads[1..]);
      assert UploadPaths(uploads) == [UploadPath(uploads[0].filename)] + UploadPaths(uploads[1..]);
    }
  }

  /** The staged path of an upload that no later upload shares a name with holds that upload's content. */
  lemma {:induction false} SavedHoldsLastUpload(files: FileMap, uploads: seq<UploadFile>, i: nat)
    requires i < |uploads|
    requires forall j :: i < j < |uploads| ==> uploads[j].filename != uploads[i].filename
    ensures UploadPath(uploads[i].filename) in Saved(files, uploads)
    ensures Saved(files, uploads)[UploadPath(uploads[i].filename)] == uploads[i].content
    decreases |uploads|
  {
    var next := files[UploadPath(uploads[0].filename) := uploads[0].content];
    if i == 0 {
      forall j | 0 <= j < |uploads[1..]|
        ensures UploadPaths(uploads[1..])[j] != UploadPath(uploads[0].filename)
      {
        UploadPathInjective(uploads[1..][j].filename, uploads[0].filename);
      }
      SavedOnlyWritesStagedPaths(next, uploads[1..]);
    } else {
      SavedHoldsLastUpload(next, uploads[1..], i - 1);
    }
  }

  /** What the loaders yield for the uploads, in upload order. */
  function LoadedUploads(loaders: Loaders, uploads: seq<UploadFile>): seq<Document>
    requires forall i :: 0 <= i < |uploads| ==> Load(loaders, UploadPath(uploads[i].filename), uploads[i].content).Some?
  {
    if uploads == [] then []
    else
      assert Load(loaders, UploadPath(uploads[0].filename), uploads[0].content).Some?;
      Load(loaders, UploadPath(uploads[0].filename), uploads[0].content).value + LoadedUploads(loaders, uploads[1..])
  }

  lemma {:induction false} LoadedUploadsAreContributions(loaders: Loaders, files: FileMap, uploads: seq<UploadFile>)
    requires forall i :: 0 <= i < |uploads| ==> Load(loaders, UploadPath(uploads[i].filename), uploads[i].content).Some?
    requires forall i :: 0 <= i < |uploads| ==> UploadPath(uploads[i].filename) in files && files[UploadPath(uploads[i].filename)] == uploads[i].content
    ensures forall i :: 0 <= i < |uploads| ==> Loadable(loaders, files, UploadPaths(uploads)[i])
    ensures Contributions(loaders, files, UploadPaths(uploads)) == LoadedUploads(loaders, uploads)
  {
    if uploads != [] {
      LoadedUploadsAreContributions(loaders, files, uploads[1..]);
      assert UploadPaths(uploads)[1..] == UploadPaths(uploads[1..]);
    }
  }

  /**
   * An upload of files with distinct names that all load yields the
   * documents of each file in upload order, and leaves the disk as it was
   * before the upload except that the staged files are gone.
   */
  lemma {:induction false} UploadIngestsInOrder(loaders: Loaders, files: FileMap, uploads: seq<UploadFile>)
    requires forall i, j :: 0 <= i < j < |uploads| ==> uploads[i].filename != uploads[j].filename
    requires forall i :: 0 <= i < |uploads| ==> Load(loaders, UploadPath(uploads[i].filename), uploads[i].content).Some?
    ensures Ingest(loaders, Saved(files, uploads), UploadPaths(uploads))
         == Run(Success(LoadedUploads(loaders, uploads)), files - (set p | p in UploadPaths(uploads)))
  {
    var saved := Saved(files, uploads);
    SavedHoldsEveryUpload(files, uploads);
    UploadPathsDistinct(uploads);
    LoadedUploadsAreContributions(loaders, saved, uploads);
    IngestInOrder(loaders, saved, UploadPaths(uploads));
    SavedLessStaged(files, uploads);
  }

  /** With distinct names, every staged path holds its own upload. */
  lemma SavedHoldsEveryUpload(files: FileMap, uploads: seq<UploadFile>)
    requires forall i, j :: 0 <= i < j < |uploads| ==> uploads[i].filename != uploads[j].filename
    ensures forall i :: 0 <= i < |uploads| ==>
              UploadPath(uploads[i].filename) in Saved(files, uploads)
              && Saved(files, uploads)[UploadPath(uploads[i].filename)] == uploads[i].content
  {
    forall i | 0 <= i < |uploads|
      ensures UploadPath(uploads[i].filename) in Saved(files, uploads)
      ensures Saved(files, uploads)[UploadPath(uploads[i].filename)] == uploads[i].content
    {
      SavedHoldsLastUpload(files, uploads, i);
    }
  }

  /** Distinct names give distinct staged paths. */
  lemma UploadPathsDistinct(uploads: seq<UploadFile>)
    requires forall i, j :: 0 <= i < j < |uploads| ==> uploads[i].filename != uploads[j].filename
    ensures Distinct(UploadPaths(uploads))
  {
    var paths := UploadPaths(uploads);
    forall i, j | 0 <= i < j < |paths| ensures paths[i] != paths[j] {
      UploadPathInjective(uploads[i].filename, uploads[j].filename);
    }
  }

  /** Once the staged paths are deleted again, the disk is the one before the upload less those paths. */
  lemma SavedLessStaged(files: FileMap, uploads: seq<UploadFile>)
    ensures Saved(files, uploads) - (set p | p in UploadPaths(uploads)) == files - (set p | p in UploadPaths(uploads))
  {
    SavedOnlyWritesStagedPaths(files, uploads);
  }

  /**
   * The write loop of `upload_files`: each file is written to its staged path
   * and the paths are collected in upload order.
   */
  method SaveUploads(uploads: seq<UploadFile>, disk: Disk) returns (paths: seq<Path>)
    modifies disk
    ensures paths == UploadPaths(uploads)
    ensures disk.files == Saved(old(disk.files), uploads)
  {
    paths := [];
    var i := 0;
    while i < |uploads|
      invariant 0 <= i <= |uploads|
      invariant paths == UploadPaths(uploads[..i])
      invariant Saved(disk.files, uploads[i..]) == Saved(old(disk.files), uploads)
    {
      assert uploads[i..][1..] == uploads[i + 1..];
      assert uploads[..i + 1][..i] == uploads[..i];
      disk.files := disk.files[UploadPath(uploads[i].filename) := uploads[i].content];
      paths := paths + [UploadPath(uploads[i].filename)];
      i := i + 1;
    }
    assert uploads[..i] == uploads;
  }

  const ChainCreatedMessage := "ConversationalRetrievalChain is created. Please ask questions."

  /**
   * The `/upload_files/` route: stages every file under the upload folder,
   * then rebuilds the manager's chain from the staged paths.
   */
  method UploadFiles(manager: ConversationChainManager, disk: Disk, uploads: seq<UploadFile>) returns (r: Result<string, UploadError>)
    modifies manager`conversationChain, disk
    ensures var run := Ingest(manager.services.loaders, Saved(old(disk.files), uploads), UploadPaths(uploads));
      && disk.files == run.files
      && match run.outcome
         case Failure(e) =>
           r == Failure(IngestFailed(e)) && manager.conversationChain == old(manager.conversationChain)
         case Success(docs) =>
           if manager.services.embedAll(docs)
           then r == Success(ChainCreatedMessage) && manager.conversationChain == Some(Chain(VectorStore(docs), []))
           else r == Failure(IndexBuildFailed) && manager.conversationChain == old(manager.conversationChain)
  {
    var paths := SaveUploads(uploads, disk);
    var created := manager.CreateConversationalChain(paths, disk);
    r := if created.Success? then Success(ChainCreatedMessage) else Failure(created.error);
  }
}
