# Helektron Study Assistant: a Dafny model of its original logic

The study assistant is a web backend. Users upload lecture material (text, PDF, slides,
audio). The backend extracts the text, keeps it per session, and aggregates it for
summary, key-term, question and resource prompts. A separate retrieval part keeps a
per-class vector store of `{text, embedding}` records and returns the best-matching text
for a query. An offline builder chunks the uploaded documents for a bulk index.

The interesting logic sits among calls to outside libraries. This project models three
pieces of it and proves their properties:

- **Per-class vector store** (`RAG/rag_utils.py`, module `RagUtils`). The file system is
  a map from path to file content, kept in the class `VectorStoreDisk`. Add, rebuild and
  search all use the key `os.path.join("upload", class_id, "vs.json")`. Add appends one
  record. Rebuild replaces the list with one record. Search is a linear scan with a running
  best score. The scan starts from the sentinel -999 and takes a new best only on a
  strictly greater score.
- **Session store and material aggregation** (`main.py`, modules `StudySessions` and
  `Uploads`). The class `SessionStore` holds the sessions map and its mirror file
  `sessions.json`. It models get-or-create, appending a file record, the aggregated session
  text and the "no material" guard. It also models how the upload route turns a file name
  into a kind and an extractor choice.
- **Document loading and chunk flattening** (`RAG/build_vector_store.py`, module
  `IndexBuilder`). Every regular, readable file with non-blank text becomes a document
  tagged with its file name. The splitter's pieces are flattened into one ordered chunk
  list, and each chunk keeps its document's metadata.

Outside inputs are parameters:

- The embedding service is a function from text to an optional vector. No vector means
  the remote call raised.
- Cosine similarity is an abstract score per pair of vectors. No score stands for NaN,
  which is what numpy gives for a zero-norm vector.
- The text splitter is an arbitrary function from text to pieces.
- `uuid.uuid4()` is a fresh-id parameter. `datetime.utcnow()` is a timestamp parameter.
- A file read is either its text or a read failure.

`Strings` models Python's `str.strip()` (with the full `str.isspace` set), `str.lower()`
on ASCII letters, and `sep.join`. `Wrappers` holds `Option`, `Result` and `Outcome`.

Behaviour of the code worth knowing:

- A malformed `vs.json` is not read as an empty store. `load_store` does not catch the
  JSON error, so add and search fail with `CorruptStore`. Rebuild never reads the file,
  so it overwrites a malformed one (`BuildForgetsOldStore`).
- Search returns one text (the first record with the top score), not a ranked top-k list
  of records.
- A record whose score is not above -999 is never chosen. This includes the NaN scores
  of zero-norm vectors. A non-empty store can therefore answer None.
- The session id `""` is falsy in `if session_id and session_id in sessions`. So
  get-or-create makes a new session for it even when `""` is a key. `add_text_to_session`
  tests only `in` and does use such a key.

## Model

| member | source | states |
|---|---|---|
| Strings.Strip | RAG/build_vector_store.py:39 | `str.strip()` is right trimming after left trimming; what it means is stated by `StripIsSlice`, `StripEnds`, `StripEmptyIff` and `StripIdempotent` |
| Strings.TrimLeftSpec | RAG/build_vector_store.py:39 | left trimming drops only a whitespace prefix, and what is left does not start with whitespace |
| Strings.TrimRightSpec | RAG/build_vector_store.py:39 | right trimming drops only a whitespace suffix, and what is left does not end with whitespace |
| Strings.StripIsSlice | RAG/build_vector_store.py:39 | `strip()` leaves a slice of the input with only whitespace before and after it |
| Strings.StripEnds | RAG/build_vector_store.py:39 | the stripped text is empty or starts and ends with a non-whitespace character |
| Strings.StripEmptyIff | main.py:326 | `s.strip()` is empty if and only if every character of `s` is whitespace |
| Strings.StripIdempotent | RAG/build_vector_store.py:39 | stripping twice is stripping once |
| Strings.Join | main.py:79 | `sep.join(parts)`: the parts in order with `sep` between neighbours, defined from the front; `JoinSnoc` and `JoinStartsWithFirst` state its properties |
| Strings.Lower | main.py:243 | the result has the input's length, and each character is lowercased if it is an ASCII capital and kept otherwise |
| Strings.JoinSnoc | main.py:79 | joining puts the separator only between parts: one more part at the end adds the separator and that part, or just the part when the list was empty (proved by induction from the front-first definition; used by `MaterialAfterAppend`) |
| Strings.JoinStartsWithFirst | main.py:79 | a non-empty join starts with its first part |
| RagUtils.PathJoin | RAG/rag_utils.py:54 | POSIX `os.path.join` of two parts; `PathJoinSpec` states its properties |
| RagUtils.StorePath | RAG/rag_utils.py:54 | the store path `os.path.join("upload", class_id, "vs.json")`; `StorePathShape` and `StorePathInjective` state its properties |
| RagUtils.PathJoinSpec | RAG/rag_utils.py:54 | `os.path.join(a, b)` ends with `b`; it starts with `a` unless `b` is absolute, and an absolute `b` is the whole result |
| RagUtils.StorePathShape | RAG/rag_utils.py:54 | a class id without `/` is stored at `upload/<id>/vs.json`, the empty id at `upload/vs.json`, and an absolute id outside `upload/` |
| RagUtils.StorePathInjective | RAG/rag_utils.py:54 | two non-empty class ids without `/` that share a store path are the same id |
| RagUtils.LoadStore | RAG/rag_utils.py:13-17 | `load_store`: a missing path gives `[]` (`LoadMissingStore`), a written list gives that list (`SaveThenLoad`), malformed JSON raises `CorruptStore` (visible in `AddedFiles` and `SearchVectorStore`) |
| RagUtils.LoadMissingStore | RAG/rag_utils.py:13-15 | `load_store` on a path that does not exist returns the empty list |
| RagUtils.SaveThenLoad | RAG/rag_utils.py:13-25 | loading after saving a list returns exactly that list |
| RagUtils.AddedFiles | RAG/rag_utils.py:49-66 | add fails with the load error or the embedding error; on success the store is the old list plus one `{text, embedding}` record at the end, and every other path is unchanged |
| RagUtils.BuiltFiles | RAG/rag_utils.py:72-89 | rebuild fails only when embedding fails; on success the store holds exactly the one new record, and every other path is unchanged |
| RagUtils.BuildIdempotent | RAG/rag_utils.py:80-89 | rebuilding twice with the same text and embedding leaves the same files as rebuilding once |
| RagUtils.BuildForgetsOldStore | RAG/rag_utils.py:77-89 | the rebuild result does not depend on what the store held before, even a malformed file |
| RagUtils.AppendsInCallOrder | RAG/rag_utils.py:57-66 | after n successful adds the store is the old list followed by exactly n records in call order |
| RagUtils.AddOne | RAG/rag_utils.py:57-66 | an add to a store that loads as `s` succeeds when the text embeds, and then loads as `s` plus the new record |
| RagUtils.AddLeavesOtherClasses | RAG/rag_utils.py:54-66 | an add for one class leaves every other class's store (ids without `/`) as it loaded before |
| RagUtils.WinnerExists | RAG/rag_utils.py:109-124 | when some score beats -999, some record is chosen |
| RagUtils.WinnerExtend | RAG/rag_utils.py:119-122 | one more scan step takes the new record exactly when its score is strictly greater than the current best |
| RagUtils.NoWinnerExtend | RAG/rag_utils.py:109-122 | before any record is kept, the next record is kept exactly when its score beats the sentinel |
| RagUtils.WinnerUnique | RAG/rag_utils.py:109-124 | at most one record satisfies the choice condition |
| RagUtils.WinnerIsFirstMaximum | RAG/rag_utils.py:109-122 | the chosen score is a number above -999 and at least every comparable score, and no earlier record has the same score, so the first one wins a tie |
| RagUtils.BestMatchNoneIff | RAG/rag_utils.py:109-124 | the result is None exactly when every score is NaN or at most -999, and a result is the text of a stored record |
| RagUtils.BestMatchDetermined | RAG/rag_utils.py:109-124 | the search result is a function of the store and the scores |
| RagUtils.SearchAfterRebuild | RAG/rag_utils.py:82-124 | over the one-record store a rebuild leaves, a search returns that text exactly when its score beats -999, and None otherwise |
| RagUtils.ScanForBest | RAG/rag_utils.py:109-124 | the loop's result is the text of the record that beats the sentinel, is strictly above all earlier scores and is not beaten later; None when there is no such record |
| RagUtils.VectorStoreDisk.AddToVectorStore | RAG/rag_utils.py:49-66 | the new file system is exactly the add transition, or unchanged with the exception returned |
| RagUtils.VectorStoreDisk.BuildVectorStore | RAG/rag_utils.py:72-89 | the new file system is exactly the rebuild transition, or unchanged with the exception returned |
| RagUtils.VectorStoreDisk.SearchVectorStore | RAG/rag_utils.py:95-124 | a malformed store raises; an empty store answers None whatever the embedder does; otherwise an embedding failure raises, or the best match is returned |
| StudySessions.LoadSessions | main.py:35-42 | `load_sessions()`; `LoadSessionsSpec` states its cases |
| StudySessions.LoadSessionsSpec | main.py:35-42 | a missing or malformed sessions file loads as `{}`, and a parsed mapping is returned as it is (the save-then-load round trip is stated by `SaveSessions`) |
| StudySessions.SessionText | main.py:74-77 | an unknown session's text is `""` |
| StudySessions.Block | main.py:78 | the f-string block `--- name (type) ---\n` + text; used through `BlocksOne` |
| StudySessions.Blocks | main.py:78 | the comprehension's blocks of the files with non-empty text; `BlocksConcat`, `BlocksOne`, `BlocksStartWithHeader` and `BlocksEmptyIff` state its properties |
| StudySessions.Material | main.py:79 | the blocks joined by `"\n\n"`; `MaterialEmptyIff`, `MaterialAfterAppend` and `MaterialBlankIff` state its properties |
| StudySessions.BlocksConcat | main.py:78 | blocks keep upload order: the blocks of two file lists are the blocks of each, concatenated |
| StudySessions.BlocksOne | main.py:78 | a file gives one block `--- name (type) ---\n` + text if its text is non-empty, otherwise none |
| StudySessions.BlocksStartWithHeader | main.py:78 | every block starts with `--- ` |
| StudySessions.BlocksEmptyIff | main.py:78 | there are no blocks exactly when every text is empty |
| StudySessions.MaterialEmptyIff | main.py:78-79 | the session text is `""` exactly when every file has empty text |
| StudySessions.MaterialAfterAppend | main.py:66-79 | appending a file with text adds one block, after a blank line unless the text was empty; a file with empty text changes nothing |
| StudySessions.MaterialBlankIff | main.py:325-330 | the session text is blank (only whitespace) exactly when it is empty |
| StudySessions.ToolMaterial | main.py:325-330 | the material a study tool prompts with, None when the text is blank; `NoMaterialIff` states when that happens |
| StudySessions.NoMaterialIff | main.py:323-330 | a study tool shows "No material uploaded yet." exactly when the session is unknown or all its texts are empty |
| StudySessions.SessionStore.constructor | main.py:48 | the in-memory sessions are what `load_sessions` returns for the file |
| StudySessions.SessionStore.SaveSessions | main.py:44-46 | after saving, the file loads back as the in-memory sessions |
| StudySessions.SessionStore.GetOrCreateSession | main.py:50-60 | a given, non-empty, known id is returned and nothing changes; otherwise the fresh id maps to a new session with no files, nothing else changes, and the file is saved |
| StudySessions.SessionStore.AddTextToSession | main.py:62-72 | an unknown id first gets a new session; exactly one record goes at the end of the target's files; other sessions are unchanged; the target's text grows by that one block |
| Uploads.LastSegment | main.py:243 | the segment is a suffix with no `.`, and it is either the whole name or preceded by a `.` |
| Uploads.LastSegmentWithoutDot | main.py:243 | a name without a dot is its own last segment |
| Uploads.LastSegmentAfterDot | main.py:243 | a name with a dot is some prefix, a dot, then its last segment |
| Uploads.LastSegmentAfterLastDot | main.py:243 | for any prefix, the segment after the last dot is the extension |
| Uploads.Extension | main.py:243 | `filename.split(".")[-1].lower()`; `LastSegment`, its lemmas and the three example lemmas state what it yields |
| Uploads.KindOf | main.py:246-251 | audio for the four audio extensions, document otherwise; stated with `ExtractorFor` by `ClassificationAgrees` |
| Uploads.ExtractorFor | main.py:260-270 | the extraction branch chosen in the route's order; `ClassificationAgrees` states which extensions reach which extractor |
| Uploads.UploadText | main.py:259-272 | the text an upload records; `UploadTextUnsupported` and `UploadTextExtracted` state its cases |
| Uploads.UploadTextUnsupported | main.py:269-270 | an extension with no extractor records `[Unsupported file type: <ext>]` whatever the extractors would do |
| Uploads.UploadTextExtracted | main.py:260-272 | an extension with an extractor records that extractor's text unchanged, or `[Error processing file <name>: <error>]` when it raised |
| Uploads.ClassificationAgrees | main.py:246-270 | the kind is audio exactly when the transcriber is chosen; only txt, pdf, pptx, mp4, m4a, wav and webm have an extractor; an unsupported type keeps its extension |
| Uploads.UpperCaseExtension | main.py:243-268 | `Lecture.MP4` has extension `mp4`, kind audio and goes to the transcriber |
| Uploads.LastDotDecides | main.py:243-264 | `notes.v2.pdf` has extension `pdf`, kind document and goes to the PDF extractor |
| Uploads.TrailingDot | main.py:243-270 | `draft.` has the empty extension, which is unsupported |
| Uploads.UploadMaterial | main.py:233-274 | the session is got or created, and exactly one record with the file's name, its kind and the extracted or placeholder text is appended; the file is saved |
| IndexBuilder.DocumentsFrom | RAG/build_vector_store.py:32-45 | the documents of a listing; `DocumentsConcat`, `FailedReadSkipped`, `DocumentsSound` and `DocumentsComplete` state its properties |
| IndexBuilder.DocumentsConcat | RAG/build_vector_store.py:32-45 | loading two listings in turn gives the documents of each, in listing order |
| IndexBuilder.FailedReadSkipped | RAG/build_vector_store.py:37-43 | a file whose read raises is skipped, and the files around it still load |
| IndexBuilder.DocumentsSound | RAG/build_vector_store.py:32-41 | every document is the non-empty stripped text of a readable regular file, tagged `{"source": name}` |
| IndexBuilder.DocumentsComplete | RAG/build_vector_store.py:32-41 | every readable regular file with non-blank text becomes a document |
| IndexBuilder.LoadDocuments | RAG/build_vector_store.py:26-45 | a missing directory gives no documents; otherwise the loop gives exactly the documents of the listing, in order |
| IndexBuilder.Chunks | RAG/build_vector_store.py:71-80 | the flattened chunk list; `ChunksLength`, `ChunkAt` and `ChunksKeepMetadata` state its properties |
| IndexBuilder.ChunksLength | RAG/build_vector_store.py:71-82 | the chunk list is as long as the sum of the per-document piece counts |
| IndexBuilder.ChunkAt | RAG/build_vector_store.py:71-80 | piece j of document i sits right after the pieces of the earlier documents and carries document i's metadata |
| IndexBuilder.ChunksKeepMetadata | RAG/build_vector_store.py:75-79 | every chunk is a piece of some document and carries that document's metadata |
| IndexBuilder.SplitDocuments | RAG/build_vector_store.py:71-80 | the nested loops produce exactly the in-order concatenation of each document's tagged pieces |
| IndexBuilder.BuildVectorStore | RAG/build_vector_store.py:51-82 | no documents gives an early return with no chunks; otherwise the chunk list of the loaded documents |

## Left out

- File, directory and JSON I/O are left out. `open`, `os.listdir`, `os.path.isfile`,
  `os.makedirs`, `json.dump` and `json.load` become maps, listings and parsed-or-malformed
  values. A JSON value of the wrong shape (not a list of records, not a mapping of
  sessions) is not modelled.
- The embedding calls (Gemini, HuggingFace), the FAISS index, the chat-completion call
  and the prompt templates are remote or library code. They are parameters or not modelled.
- Saving the FAISS index and `docs.json` after chunking is left out.
  `IndexBuilder.BuildVectorStore` stops at the chunk list.
- The splitter's windowing (chunk size 1000, overlap 200) is library behaviour that is not
  visible. No chunk size or overlap property is claimed.
- Cosine arithmetic (`np.dot`, `np.linalg.norm`) is float code. Each comparison has an
  abstract optional score. A dimension mismatch, which makes numpy raise, is not modelled.
- The text extractors (PyMuPDF, python-pptx, ffmpeg and whisper) are not modelled. Only
  the dispatch choice is. The result of the chosen extractor, or the message of what it
  raised, is a parameter.
- Writing the uploaded bytes to disk and the second uuid used in the saved file name are
  left out.
- The live-audio route and the other HTTP routes, the templates and the HTML fragments
  are not modelled. Only the material guard of the study-tool routes is modelled
  (`ToolMaterial`, `NoMaterialIff`).
- Concurrency is not modelled. Whole-file rewrites of `sessions.json` and `vs.json` are
  last-writer-wins.
- Strings.Lower: lowercases ASCII letters only. Python's `str.lower()` also maps other
  letters. The classification is unaffected, since every known extension is plain ASCII
  and no non-ASCII letter lowercases into one. Only the text of an unsupported-type
  message can differ.
- The timestamps of `created_at` and `added_at` are one parameter `now`, not two clock
  readings.
- Chunk documents that share their parent's metadata dictionary are modelled as
  separate, equal map values. Aliased mutation is not captured.
- RagUtils.AddedFiles, RagUtils.BuiltFiles, RagUtils.SameElsewhere: the file system is a
  map keyed by the path string, and `.`, `..` and repeated `/` are not normalised. So
  "every other path is unchanged" speaks of path strings: class `"."` writes
  `upload/./vs.json`, which on disk is the file of class `""` (`upload/vs.json`), and
  `"a/."` or `"a//"` reach the store of `"a"`. `AddLeavesOtherClasses` is not affected,
  since two different non-empty ids without `/` name different files on disk as well.
- StudySessions.SessionStore.GetOrCreateSession: does not assume that `uuid.uuid4()` gives
  an id not yet in use. A fresh id that collides with a key replaces that session with an
  empty one, as the code would.
- The `print` logging of `RAG/build_vector_store.py` (lines 29, 43, 52-60) is not modelled.
