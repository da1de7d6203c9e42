/**
 * The offline index builder: read every regular file of the document
 * directory, keep the non-blank ones as documents tagged with their file name,
 * and flatten the text splitter's output into one ordered list of chunks that
 * carry their document's metadata.
 *
 * The directory listing is a sequence of entries in `os.listdir` order (no
 * listing: the directory does not exist), each file's read is its text or the
 * fact that reading raised, and the splitter is an arbitrary function from a
 * document's text to its chunks.
 */
module IndexBuilder {
  import opened Wrappers
  import opened Strings

  /** A text with metadata, as passed to the splitter and the index. */
  datatype Document = Document(pageContent: string, metadata: map<string, string>)

  /** The result of `f.read()`: the text, or an exception. */
  datatype ReadResult = Contents(text: string) | ReadError

  /** One name listed in the document directory. */
  datatype DirEntry = RegularFile(name: string, read: ReadResult) | OtherEntry(name: string)

  /** `{"source": filename}`. */
  function SourceTag(filename: string): map<string, string> {
    map["source" := filename]
  }

  /** A regular file that can be read and whose stripped text is not empty. */
  predicate Loadable(e: DirEntry) {
    e.RegularFile? && e.read.Contents? && Strip(e.read.text) != ""
  }

  /** The document a loadable entry becomes: the stripped text, tagged with the file name. */
  function DocumentOf(e: DirEntry): Document
    requires Loadable(e)
  {
    Document(Strip(e.read.text), SourceTag(e.name))
  }

  /** The documents loaded from the entries, in listing order. */
  function DocumentsFrom(entries: seq<DirEntry>): seq<Document>
  {
    if entries == [] then []
    else
      var last := entries[|entries| - 1];
      DocumentsFrom(entries[..|entries| - 1]) + (if Loadable(last) then [DocumentOf(last)] else [])
  }

  /** Loading two listings one after the other gives the documents of each, in order. */
  lemma {:induction false} DocumentsConcat(a: seq<DirEntry>, b: seq<DirEntry>)
    ensures DocumentsFrom(a + b) == DocumentsFrom(a) + DocumentsFrom(b)
  {
    if b == [] {
      assert a + b == a;
    } else {
      assert (a + b)[..|a + b| - 1] == a + b[..|b| - 1];
      DocumentsConcat(a, b[..|b| - 1]);
    }
  }

  /** A file whose read raises is skipped and the files around it still load. */
  lemma FailedReadSkipped(a: seq<DirEntry>, name: string, b: seq<DirEntry>)
    ensures DocumentsFrom(a + [RegularFile(name, ReadError)] + b) == DocumentsFrom(a) + DocumentsFrom(b)
  {
    DocumentsConcat(a + [RegularFile(name, ReadError)], b);
    DocumentsConcat(a, [RegularFile(name, ReadError)]);
    assert [RegularFile(name, ReadError)][..0] == [];
    assert DocumentsFrom(a) + [] == DocumentsFrom(a);
  }

  /** Every document comes from a loadable entry: non-blank stripped text tagged with
      the file's name. */
  lemma {:induction false} DocumentsSound(entries: seq<DirEntry>)
    ensures forall d :: d in DocumentsFrom(entries) ==>
      exists k :: 0 <= k < |entries| && Loadable(entries[k]) && d == DocumentOf(entries[k])
  {
    if entries != [] {
      var n := |entries|;
      var front := entries[..n - 1];
      DocumentsSound(front);
      forall d | d in DocumentsFrom(entries)
        ensures exists k :: 0 <= k < n && Loadable(entries[k]) && d == DocumentOf(entries[k])
      {
        if d in DocumentsFrom(front) {
          var k :| 0 <= k < |front| && Loadable(front[k]) && d == DocumentOf(front[k]);
          assert front[k] == entries[k];
        } else {
          assert Loadable(entries[n - 1]) && d == DocumentOf(entries[n - 1]);
        }
      }
    }
  }

  /** Every loadable entry becomes a document. */
  lemma {:induction false} DocumentsComplete(entries: seq<DirEntry>, k: nat)
    requires k < |entries| && Loadable(entries[k])
    ensures DocumentOf(entries[k]) in DocumentsFrom(entries)
  {
    var n := |entries|;
    var front := entries[..n - 1];
    var tail := if Loadable(entries[n - 1]) then [DocumentOf(entries[n - 1])] else [];
    assert DocumentsFrom(entries) == DocumentsFrom(front) + tail;
    if k < n - 1 {
      assert front[k] == entries[k];
      DocumentsComplete(front, k);
    } else {
      assert tail == [DocumentOf(entries[k])];
    }
  }

  /** `load_documents()`: no directory gives no documents; otherwise each regular file
      is read and stripped, and kept when the text is not empty. */
  method LoadDocuments(docDir: Option<seq<DirEntry>>) returns (docs: seq<Document>)
    ensures docDir.None? ==> docs == []
    ensures docDir.Some? ==> docs == DocumentsFrom(docDir.value)
  {
    docs := [];
    if docDir.None? {
      return;
    }
    var entries := docDir.value;
    var i := 0;
    while i < |entries|
      invariant 0 <= i <= |entries|
      invariant docs == DocumentsFrom(entries[..i])
    {
      var entry := entries[i];
      assert entries[..i + 1][..i] == entries[..i];
      if entry.RegularFile? {
        match entry.read
        case ReadError =>
        case Contents(raw) =>
          var text := Strip(raw);
          if text != "" {
            docs := docs + [Document(text, SourceTag(entry.name))];
          }
      }
      i := i + 1;
    }
    assert entries[..i] == entries;
  }

  /** The chunk documents of one document: each piece with the document's metadata. */
  function Tagged(pieces: seq<string>, metadata: map<string, string>): (r: seq<Document>)
    ensures |r| == |pieces|
    ensures forall j :: 0 <= j < |pieces| ==> r[j] == Document(pieces[j], metadata)
  {
    seq(|pieces|, j requires 0 <= j < |pieces| => Document(pieces[j], metadata))
  }

  /** The chunk list: the documents' chunk documents, concatenated in document order. */
  function Chunks(docs: seq<Document>, split: string -> seq<string>): seq<Document>
  {
    if docs == [] then []
    else
      var last := docs[|docs| - 1];
      Chunks(docs[..|docs| - 1], split) + Tagged(split(last.pageContent), last.metadata)
  }

  /** The total number of pieces the splitter returns for the documents. */
  function ChunkCount(docs: seq<Document>, split: string -> seq<string>): nat
  {
    if docs == [] then 0
    else ChunkCount(docs[..|docs| - 1], split) + |split(docs[|docs| - 1].pageContent)|
  }

  /** The chunk list is as long as the per-document chunk counts added up. */
  lemma {:induction false} ChunksLength(docs: seq<Document>, split: string -> seq<string>)
    ensures |Chunks(docs, split)| == ChunkCount(docs, split)
  {
    if docs != [] {
      ChunksLength(docs[..|docs| - 1], split);
    }
  }

  /** Piece `j` of document `i` sits right after the pieces of the documents before it,
      with document `i`'s metadata. */
  lemma {:induction false} ChunkAt(docs: seq<Document>, split: string -> seq<string>, i: nat, j: nat)
    requires i < |docs| && j < |split(docs[i].pageContent)|
    ensures ChunkCount(docs[..i], split) + j < |Chunks(docs, split)|
    ensures Chunks(docs, split)[ChunkCount(docs[..i], split) + j]
         == Document(split(docs[i].pageContent)[j], docs[i].metadata)
  {
    var n := |docs|;
    var front := docs[..n - 1];
    ChunksLength(front, split);
    if i == n - 1 {
      assert docs[..i] == front;
    } else {
      assert front[..i] == docs[..i];
      assert front[i] == docs[i];
      ChunkAt(front, split, i, j);
    }
  }

  /** Every chunk is a piece of some document and carries that document's metadata. */
  lemma {:induction false} ChunksKeepMetadata(docs: seq<Document>, split: string -> seq<string>, k: nat)
    requires k < |Chunks(docs, split)|
    ensures exists i :: (0 <= i < |docs|
      && Chunks(docs, split)[k].metadata == docs[i].metadata
      && Chunks(docs, split)[k].pageContent in split(docs[i].pageContent))
  {
    var n := |docs|;
    var front := docs[..n - 1];
    var head := Chunks(front, split);
    if k < |head| {
      ChunksKeepMetadata(front, split, k);
      var i :| 0 <= i < |front| && head[k].metadata == front[i].metadata
        && head[k].pageContent in split(front[i].pageContent);
      assert front[i] == docs[i];
    } else {
      var pieces := split(docs[n - 1].pageContent);
      assert Chunks(docs, split)[k] == Document(pieces[k - |head|], docs[n - 1].metadata);
    }
  }

  /** The chunking loop of `build_vector_store()`: for each document, in order, one chunk
      document per piece returned by the splitter, with the document's metadata. */
  method SplitDocuments(docs: seq<Document>, split: string -> seq<string>) returns (splitDocs: seq<Document>)
    ensures splitDocs == Chunks(docs, split)
  {
    splitDocs := [];
    var i := 0;
    while i < |docs|
      invariant 0 <= i <= |docs|
      invariant splitDocs == Chunks(docs[..i], split)
    {
      var doc := docs[i];
      var chunks := split(doc.pageContent);
      var j := 0;
      while j < |chunks|
        invariant 0 <= j <= |chunks|
        invariant splitDocs == Chunks(docs[..i], split) + Tagged(chunks[..j], doc.metadata)
      {
        splitDocs := splitDocs + [Document(chunks[j], doc.metadata)];
        j := j + 1;
      }
      assert chunks[..j] == chunks;
      assert docs[..i + 1][..i] == docs[..i];
      i := i + 1;
    }
    assert docs[..i] == docs;
  }

  /** `build_vector_store()` up to the embedding step: no documents means an early
      return with no chunks; otherwise the flattened chunk list that is embedded and saved. */
  method BuildVectorStore(docDir: Option<seq<DirEntry>>, split: string -> seq<string>)
    returns (splitDocs: Option<seq<Document>>)
    ensures splitDocs.None? <==> (docDir.None? || DocumentsFrom(docDir.value) == [])
    ensures splitDocs.Some? ==> splitDocs.value == Chunks(DocumentsFrom(docDir.value), split)
  {
    var docs := LoadDocuments(docDir);
    if docs == [] {
      return None;
    }
    var chunks := SplitDocuments(docs, split);
    splitDocs := Some(chunks);
  }
}
