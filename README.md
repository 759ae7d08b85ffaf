# React LLM Chat: a Dafny model of its document upload and chat logic

React LLM Chat lets a user upload documents from a web page and then ask questions about them. A FastAPI backend loads the uploaded files into documents. It embeds them into a vector store and answers questions with a conversational retrieval chain. Until the first upload, it answers through the language model directly. A React frontend validates the files before uploading them and keeps the chat transcript.

This project models the three pieces of the system that carry logic of their own:

- **Document loading** (`document_loading.dfy`, module `DocumentLoading`): `get_docs` walks the uploaded paths in order. It dispatches each path on its suffix (`.txt`, `.csv`, `.docx`, `.pdf`). It appends the loader's documents and deletes the file. Paths with other suffixes add nothing. The loaders and the text splitter are function-valued parameters (`Loaders`). The file system is a map from path to bytes held by a `Disk` object. `GetDocs` is the loop itself. It is proved equal to the reference definition `Ingest`, and the lemmas about `Ingest` state the properties.
- **Chain manager** (`chain_manager.dfy`, module `ChainManager`): `ConversationChainManager` is a class whose `conversationChain` field is absent until an upload succeeds. `CreateConversationalChain` replaces the chain wholesale, with a store built from exactly the new documents and an empty memory. `Predict` takes the fallback path or the retrieval path depending on that field. `ManagerClass.Construct` models the singleton `__new__` and the `__init__` that Python runs after it. The `/upload_files/` route is `UploadFiles`: it stages each file at `uploads/<name>` and then rebuilds the chain. The embedding service, the language model and the chain's internals are function-valued parameters (`Services`).
- **Upload validator** (`file_upload.dfy`, module `FileUpload`): `handleSubmit` rejects files over 100 MiB, then files whose extension is not csv, txt, pdf or docx. The extension is the text after the last dot, lowercased, or the whole name when there is no dot. The loop is `FilterSelection`. The component state (selected files, uploaded files, the file input) is the class `FileUploadList`.
- **Chat transcript** (`chat_content.dfy`, module `Chat`): the transcript is a sequence of `{key, type, msg}` items. Each new item is keyed `length + 1`. The component state is the class `ChatContent`, and it keeps the invariant `WellFormed`: every key is the item's position, and every AI item directly follows a human item.

`outcomes.dfy` (module `Outcomes`) holds the `Option` and `Result` types used for values that may be absent and for calls that may raise.

Some behaviours of the code that the model keeps:

- At most one of the four suffixes can match a path, because they end in different characters. So the order of the `if`/`elif` tests never changes the branch a path takes (`KindOfMatchesSuffix`).
- A loader that raises stops `get_docs`. The files before it are already deleted. It and the files after it stay on disk, since there is no `finally` (`IngestStopsAtFirstFailure`).
- Two uploaded files with the same name are staged at the same path, so that path is listed twice. The first pass deletes the file and the second pass raises, failing the whole upload (`RepeatedPathFails`).
- Python runs `__init__` on every call of `ConversationChainManager()`, also when `__new__` returns the existing instance. A second construction would therefore reset the chain to `None` (`ManagerClass.Construct`). The module builds the manager only once, so this never happens at run time.
- The answer effect appends the AI item to the transcript it captured when it sent the question (`OnAnswer` takes that snapshot). A second question can be sent while the first is still unanswered, and each answer then overwrites the transcript with its own snapshot plus the answer, so the last answer to arrive decides the transcript. If the answers arrive in the order asked, the transcript ends with both questions and only the second answer, and the first answer is lost (`AnswersInOrderLoseFirstAnswer`). If the second answer arrives first, the transcript ends with the first question and its answer: the second question and its answer are lost for good (`AnswersOutOfOrderLoseSecondQuestion`). In both cases the last item is an AI item, so no further request is sent, and the invariant `WellFormed` still holds.
- The form and the server disagree on letter case. The form lowercases the extension before checking it, but the server's suffix tests are case-sensitive. A file named `Report.PDF` therefore passes the form, is staged, is read by no loader and is deleted, so it contributes no documents (`UpperCaseSuffixAcceptedButNotLoaded`).

## Model

| member | source | states |
|---|---|---|
| `DocumentLoading.KindOf` | backend/main.py:75-95 | Defines the branch a path takes: the first of the case-sensitive `endswith` tests for `.txt`, `.csv`, `.docx`, `.pdf` that holds, or none |
| `DocumentLoading.Load` | backend/main.py:75-98 | Defines what one branch yields for a file's content. Only a recognised suffix can raise; a path with any other suffix yields no documents |
| `DocumentLoading.Branch` | backend/main.py:76-97 | Defines each kind's loader call: text and Word output split with chunk size 1000 and overlap 100, CSV rows as loaded, PDF pages from `load_and_split`; `None` when the loader raises |
| `DocumentLoading.Ingest` | backend/main.py:72-100 | Defines `get_docs` as a reference: the paths front to back, each step loading the file and removing it, the first raise ending the run with the disk as it stands |
| `DocumentLoading.Disk.constructor` | backend/main.py:99 | The file system that `os.remove` and the upload writes act on starts as the given map from path to content |
| `DocumentLoading.KindOfMatchesSuffix` | backend/main.py:75-95 | A path takes the branch for a format exactly when it ends, case-sensitively, with that format's suffix; the priority order never matters |
| `DocumentLoading.KindOfSound` | backend/main.py:75-95 | The branch taken is one whose suffix the path ends with, and no branch is taken only when no suffix matches |
| `DocumentLoading.NoBranchForOtherLastChar` | backend/main.py:75-95 | A path whose last character is not `t`, `v`, `x` or `f` (an upper-case `F` included) takes no branch |
| `DocumentLoading.UnknownSuffixTakesNoBranch` | backend/main.py:75-98 | A path takes no branch exactly when it ends with none of `.txt`, `.csv`, `.docx`, `.pdf` |
| `DocumentLoading.Step` | backend/main.py:74-99 | One iteration: it succeeds exactly when the file is on disk and its branch does not raise; success deletes exactly that file; a missing file reports FileNotFound and a failing loader reports LoaderFailed; an unknown suffix yields no documents and no error |
| `DocumentLoading.LoadByExtension` | backend/main.py:75-98 | Whatever the order of the tests, a path ending with a kind's suffix gets that kind's branch (`.txt`/`.docx` output split with chunk size 1000 and overlap 100, `.csv` rows unsplit, `.pdf` from `load_and_split`). A path ending with none of the suffixes gets no documents |
| `DocumentLoading.GetDocs` | backend/main.py:72-100 | The loop returns the result of the reference definition `Ingest` and leaves the disk `Ingest` describes |
| `DocumentLoading.IngestInOrder` | backend/main.py:73-100 | For distinct paths that are all on disk and all load, the result is each path's documents concatenated in input order, and exactly the listed files are deleted |
| `DocumentLoading.IngestStopsAtFirstFailure` | backend/main.py:74-99 | For distinct paths, when path k is the first that fails, the call raises that path's error, the files before k are deleted, and path k and every later file are kept |
| `DocumentLoading.IngestOnlyDeletesListedFiles` | backend/main.py:99 | The disk afterwards is the old disk less some of the listed files, contents unchanged; unlisted files are never touched; on success every listed file is gone |
| `DocumentLoading.MissingPathFails` | backend/main.py:74-99 | A listed path that is not on disk makes the call raise |
| `DocumentLoading.RepeatedPathFails` | backend/main.py:74-99 | A path listed twice makes the call raise, because its first pass deletes the file |
| `ChainManager.FallbackPrompt` | backend/main.py:179-180 | The fallback prompt is exactly the fixed instruction followed by the query |
| `ChainManager.ConversationChainManager.constructor` | backend/main.py:45-48 | A new manager has no chain and holds the given services |
| `ChainManager.ConversationChainManager.Init` | backend/main.py:45-48 | `__init__` resets the chain to `None` and installs new services |
| `ChainManager.ConversationChainManager.CreateConversationalChain` | backend/main.py:50-69 | Loads the documents, deleting files as `get_docs` does; on success installs a chain whose store holds exactly the new documents and whose memory is empty; if loading or embedding raises, the old chain stays; once present, the chain never becomes absent |
| `ChainManager.ManagerClass.constructor` | backend/main.py:36 | The class starts with no instance |
| `ChainManager.ManagerClass.Construct` | backend/main.py:38-48 | Every construction after the first returns the same instance; the first returns a fresh one; in both cases `__init__` leaves the chain absent |
| `ChainManager.Predict` | backend/main.py:171-187 | Without a chain: the model answers exactly the fallback prompt, and no chain appears. With a chain: the chain answers from its store and memory, and the turn is appended to its memory. A model call that raises changes nothing |
| `ChainManager.UploadPath` | backend/main.py:160 | The staged path is `uploads/` followed by the file name |
| `ChainManager.UploadPathInjective` | backend/main.py:160 | Two names share a staged path exactly when they are equal |
| `ChainManager.UploadPaths` | backend/main.py:158-164 | One staged path per uploaded file, in upload order |
| `ChainManager.Saved` | backend/main.py:159-164 | Defines the disk after the write loop: each upload written to its staged path in upload order, a later write to the same path replacing an earlier one |
| `ChainManager.SavedOnlyWritesStagedPaths` | backend/main.py:159-164 | Writing the uploads adds their staged paths and leaves every other file as it was |
| `ChainManager.SavedHoldsLastUpload` | backend/main.py:159-164 | Each staged path holds the content of the last upload with that name |
| `ChainManager.SaveUploads` | backend/main.py:156-164 | The write loop returns the staged paths in upload order and leaves the disk described by `Saved` |
| `ChainManager.UploadIngestsInOrder` | backend/main.py:158-166 | Uploading files with distinct names that all load yields each file's documents in upload order. The disk ends as it was before the upload, less any file that was already at one of the staged paths |
| `ChainManager.UpperCaseSuffixAcceptedButNotLoaded` | backend/main.py:75-98 | A name ending in `.PDF` of at most 100 MiB passes the form's check, but its staged path takes no loader branch and yields no documents |
| `ChainManager.UploadFiles` | backend/main.py:149-168 | The upload route stages the files, then rebuilds the chain from the staged paths, with the outcomes of `CreateConversationalChain` and the fixed success message |
| `FileUpload.LastSegment` | frontend/src/components/fileUploadList/FileUploadList.js:35 | Defines `name.split('.').pop()`: the text after the last dot, the whole name when there is none, empty after a trailing dot |
| `FileUpload.LowerChar` | frontend/src/components/fileUploadList/FileUploadList.js:35 | `toLowerCase` on one character: the result is never an upper-case ASCII letter, and any other character is kept |
| `FileUpload.ToLower` | frontend/src/components/fileUploadList/FileUploadList.js:35 | `toLowerCase` on a string keeps its length |
| `FileUpload.ToLowerIdempotent` | frontend/src/components/fileUploadList/FileUploadList.js:35 | Lowercasing twice is the same as lowercasing once |
| `FileUpload.Extension` | frontend/src/components/fileUploadList/FileUploadList.js:35 | Defines the extension the form checks: the last segment, lowercased |
| `FileUpload.IsAllowedExtension` | frontend/src/components/fileUploadList/FileUploadList.js:36 | Defines the allowed test: the extension with a dot in front is one of `.csv`, `.txt`, `.pdf`, `.docx` |
| `FileUpload.LastSegmentSpec` | frontend/src/components/fileUploadList/FileUploadList.js:35 | The extension text is a dot-free suffix of the name that is either the whole name or directly preceded by a dot |
| `FileUpload.LastSegmentUnique` | frontend/src/components/fileUploadList/FileUploadList.js:35 | That description determines the extension text uniquely |
| `FileUpload.Check` | frontend/src/components/fileUploadList/FileUploadList.js:29-40 | A file is too large exactly when its size exceeds 100 MiB, whatever its name; otherwise it is rejected exactly when its extension is not allowed, and accepted otherwise |
| `FileUpload.AllowedExtensionsSpelledOut` | frontend/src/components/fileUploadList/FileUploadList.js:25-36 | `"." + ext` is in the allowed list exactly when `ext` is csv, txt, pdf or docx |
| `FileUpload.AcceptedExtensions` | frontend/src/components/fileUploadList/FileUploadList.js:24-40 | A file is accepted exactly when it is at most 100 MiB and its lowercased extension is csv, txt, pdf or docx |
| `FileUpload.SizeBoundary` | frontend/src/components/fileUploadList/FileUploadList.js:24-29 | A file of exactly 100 MiB passes the size check; one byte more fails it |
| `FileUpload.DotlessNameAccepted` | frontend/src/components/fileUploadList/FileUploadList.js:35-36 | A file named `txt` has no dot, so its extension is `txt` and it is accepted |
| `FileUpload.UpperCaseExtensionAccepted` | frontend/src/components/fileUploadList/FileUploadList.js:35-36 | `Report.PDF` is accepted, since letter case is ignored |
| `FileUpload.UpperCasePdfAccepted` | frontend/src/components/fileUploadList/FileUploadList.js:35-36 | Any name ending in `.PDF` has the extension `pdf`, so a file of at most 100 MiB with such a name is accepted |
| `FileUpload.OnlyLastDotCounts` | frontend/src/components/fileUploadList/FileUploadList.js:35-36 | `notes.txt.zip` is rejected, since only the text after the last dot counts |
| `FileUpload.TrailingDotRejected` | frontend/src/components/fileUploadList/FileUploadList.js:35-36 | `csv.` has the empty extension and is rejected |
| `FileUpload.AcceptedFiles` | frontend/src/components/fileUploadList/FileUploadList.js:28-44 | Defines the form data: the files that pass both checks, in selection order |
| `FileUpload.Notice` | frontend/src/components/fileUploadList/FileUploadList.js:29-39 | Defines the error notice one file draws: the too-large notice, else the invalid-extension notice, else none |
| `FileUpload.RejectionToasts` | frontend/src/components/fileUploadList/FileUploadList.js:28-40 | Defines the error notices of a selection: each file's notice, in selection order |
| `FileUpload.AcceptedFilesMembers` | frontend/src/components/fileUploadList/FileUploadList.js:28-44 | The form data holds exactly the accepted files, never a rejected one |
| `FileUpload.AcceptedFilesAppend` | frontend/src/components/fileUploadList/FileUploadList.js:28-44 | Filtering distributes over concatenation, so accepted files keep their selection order |
| `FileUpload.SomeFileAccepted` | frontend/src/components/fileUploadList/FileUploadList.js:43-47 | The form data is non-empty exactly when some selected file is accepted |
| `FileUpload.RejectionToastsAppend` | frontend/src/components/fileUploadList/FileUploadList.js:28-40 | Error notices come one per rejected file, in selection order |
| `FileUpload.FilterSelection` | frontend/src/components/fileUploadList/FileUploadList.js:23-44 | The loop yields exactly the accepted files in order and one notice per rejected file; `filesappended` is true exactly when some file is accepted |
| `FileUpload.FileUploadList.constructor` | frontend/src/components/fileUploadList/FileUploadList.js:12-13 | Both file lists start empty |
| `FileUpload.FileUploadList.HandleFileChange` | frontend/src/components/fileUploadList/FileUploadList.js:16-18 | A new selection replaces the old one |
| `FileUpload.FileUploadList.HandleSubmit` | frontend/src/components/fileUploadList/FileUploadList.js:20-68 | A request carrying the accepted files is sent exactly when one was accepted; otherwise the "no files" error shows. The uploaded list becomes the whole selection, rejected files included, only after a successful post. The selection and the input are cleared in every case |
| `Chat.Appended` | frontend/src/components/chatContent/ChatContent.js:14 | Defines `[...chat, {key: chat.length + 1, type, msg}]`, the append used for human messages and, on line 40, for answers |
| `Chat.AppendedExtends` | frontend/src/components/chatContent/ChatContent.js:15-40 | Appending adds exactly one item keyed by the new length and leaves the earlier items unchanged |
| `Chat.HumanAppendKeepsWellFormed` | frontend/src/components/chatContent/ChatContent.js:14-18 | Appending a human item keeps keys equal to positions and leaves a human item last |
| `Chat.AiAppendKeepsWellFormed` | frontend/src/components/chatContent/ChatContent.js:35-41 | Appending an AI item after a human item keeps the invariant |
| `Chat.KeysAreUnique` | frontend/src/components/chatContent/ChatContent.js:15-40 | In a well-formed transcript no two items share a key |
| `Chat.NoAdjacentAi` | frontend/src/components/chatContent/ChatContent.js:35-41 | Two AI items are never adjacent, and the transcript never starts with an AI item |
| `Chat.AiNeverOutnumbersHuman` | frontend/src/components/chatContent/ChatContent.js:35-41 | There are never more AI items than human ones, and strictly fewer while a question is unanswered |
| `Chat.CountAppended` | frontend/src/components/chatContent/ChatContent.js:15-40 | An append adds one to its speaker's count and leaves the other speaker's count alone |
| `Chat.AnswersInOrderLoseFirstAnswer` | frontend/src/components/chatContent/ChatContent.js:34-47 | With two questions in flight and the answers arriving in order, the transcript ends with both questions and only the second answer, and its last item is an AI item, so no new request is sent |
| `Chat.AnswersOutOfOrderLoseSecondQuestion` | frontend/src/components/chatContent/ChatContent.js:34-47 | With two questions in flight and the second answer arriving first, the transcript ends with the first question and its answer only, and its last item is an AI item, so the second question is never asked again |
| `Chat.ChatContent.constructor` | frontend/src/components/chatContent/ChatContent.js:9-10 | The transcript and the input start empty |
| `Chat.ChatContent.OnStateChange` | frontend/src/components/chatContent/ChatContent.js:60-62 | Typing replaces the input text |
| `Chat.ChatContent.AddHumanMessage` | frontend/src/components/chatContent/ChatContent.js:14-18 | Appends exactly one human item with the next key, clears the input, and keeps the invariant |
| `Chat.ChatContent.OnKeyDown` | frontend/src/components/chatContent/ChatContent.js:22-27 | Enter with a non-empty input appends it as a human item and clears the input; any other key, or an empty input, changes nothing |
| `Chat.ChatContent.OnChatChanged` | frontend/src/components/chatContent/ChatContent.js:34-39 | A question is sent exactly when the last item is human, and the question is that item's text |
| `Chat.ChatContent.OnAnswer` | frontend/src/components/chatContent/ChatContent.js:37-44 | A failed fetch leaves the transcript unchanged; an answer makes the transcript the captured one plus an AI item; the invariant holds |

## Left out

- Loader, splitter, embedding, vector-store and language-model internals are function-valued parameters. The model never computes chunks, embeddings or answers.
- The vector store is taken to hold exactly the documents of the build that created it. Whether the in-process vector store library shares one collection between builds is not modelled.
- The condense-question, document and final prompt templates (backend/main.py:102-143) are constant text. They only shape what the foreign chain sends to the model, so they are not modelled.
- Chain memory: the turn appended to the chain's memory after a successful retrieval answer is the buffer memory's own behaviour inside the foreign chain, modelled as one `(question, answer)` pair.
- FastAPI routing, CORS, multipart decoding and `os.makedirs` are not modelled. Writing a staged file is a map update that never fails.
- `print` calls and console logging are not modelled.
- Lowercasing: `toLowerCase` is modelled for ASCII letters only. No other character lowercases to a letter of csv, txt, pdf or docx, so accept and reject decisions are the same.
- The HTTP calls `api.post` and `api.get` are parameters of the methods that use them: the post's reply and the answer, or `None` for a failure. The toasts are kept as a list of notice values with their text left out.
- React's effect and listener wiring, the `scrollToBottom` timer, and the rendering are not modelled. This covers `App.js`, `ChatItem.js` and `Avatar.js`.
- Path aliasing: the disk is a map keyed by path strings, so two different strings are always two different files. The source builds `uploads/<name>` from the name the client sends, with no normalisation (backend/main.py:160). The model does not resolve `.`, `..` or repeated separators, and it assumes a case-sensitive file system. So it does not capture these cases:
  - `a.txt` and `./a.txt` name the same file. In the program, the second write replaces the first, the first pass loads and deletes the file, and the second pass raises. The model treats them as two files that both load.
  - A name such as `../main.py` writes outside `uploads`. `get_docs` then deletes that file, because a `.py` path takes no branch and is still removed. The model keeps such a file apart from the key `main.py`.
  - On a case-insensitive file system, names that differ only in letter case merge in the same way.
- Concurrency: each route call and each event handler is modelled as running alone to completion. `upload_files` is `async` and yields at every `await` of its write loop (backend/main.py:159-164). Two uploads can therefore interleave in the shared `uploads` folder. When both carry a file with the same name, the first to reach `get_docs` may load the other's content and delete it, and the second then raises `FileNotFound`. A second submit while a post is still pending (frontend/src/components/fileUploadList/FileUploadList.js:50-57) is not modelled either. The model does not capture these interleavings.
- Submit order: the awaited post is modelled as finishing before the selection is cleared. In the browser, the clear happens after the `await`, so the order matches.
