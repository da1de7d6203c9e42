/**
 * The per-class vector store of the study assistant: a JSON file
 * `upload/<class_id>/vs.json` holding a list of `{text, embedding}` records,
 * appended to one record at a time, rebuilt from one text, and searched
 * linearly for the record most similar to a query.
 *
 * The file system is a map from path to file content. The embedding service
 * is a function from text to an optional vector (no vector: the remote call
 * raised). Cosine similarity is an abstract score per pair of vectors, where
 * no score stands for NaN (the value numpy yields for a zero-norm vector).
 */
module RagUtils {
  import opened Wrappers

  type Embedding = seq<real>

  /** One stored record, `{"text": ..., "embedding": ...}`. */
  datatype Record = Record(text: string, embedding: Embedding)

  /** What a store path holds: a parsed JSON list of records, or text `json.load` rejects. */
  datatype StoreFile = StoreJson(records: seq<Record>) | MalformedJson

  /** The exceptions the three operations let escape. */
  datatype Error =
    | CorruptStore(path: string)         // json.load raised on the store file
    | EmbeddingUnavailable(text: string) // the embedding call for this text raised

  type Files = map<string, StoreFile>

  /** The initial `best_score` of the search; only a score strictly above it can be chosen. */
  const Sentinel: real := -999.0

  /** Python's `os.path.join(a, b)` on POSIX: an absolute `b` discards `a`, and no
      separator is added after an empty `a` or one that already ends in `/`. */
  function PathJoin(a: string, b: string): string {
    if |b| > 0 && b[0] == '/' then b
    else if a == "" || a[|a| - 1] == '/' then a + b
    else a + "/" + b
  }

  /** A join ends with its second part, starts with its first part unless the second is
      absolute, and is the second part alone when that is absolute. */
  lemma PathJoinSpec(a: string, b: string)
    ensures var p := PathJoin(a, b); |b| <= |p| && b == p[|p| - |b|..]
    ensures (|b| == 0 || b[0] != '/') ==> a <= PathJoin(a, b)
    ensures |b| > 0 && b[0] == '/' ==> PathJoin(a, b) == b
  {
  }

  /** `os.path.join("upload", class_id, "vs.json")`, the one key all three operations use. */
  function StorePath(classId: string): string {
    PathJoin(PathJoin("upload", classId), "vs.json")
  }

  /** A plain class id gets `upload/<class_id>/vs.json`; the empty id gets `upload/vs.json`;
      an absolute id leaves the upload directory. */
  lemma StorePathShape(classId: string)
    ensures classId != "" && '/' !in classId ==> StorePath(classId) == "upload/" + classId + "/vs.json"
    ensures classId == "" ==> StorePath(classId) == "upload/vs.json"
    ensures |classId| > 0 && classId[0] == '/' ==> StorePath(classId) == PathJoin(classId, "vs.json")
  {
    if classId != "" && '/' !in classId {
      assert classId[|classId| - 1] in classId;
    }
  }

  /** Class ids without a `/` get distinct store files. */
  lemma StorePathInjective(c1: string, c2: string)
    requires c1 != "" && '/' !in c1 && c2 != "" && '/' !in c2
    requires StorePath(c1) == StorePath(c2)
    ensures c1 == c2
  {
    StorePathShape(c1);
    StorePathShape(c2);
    var p := StorePath(c1);
    assert |c1| == |c2|;
    assert c1 == p[7..7 + |c1|];
    assert c2 == p[7..7 + |c2|];
  }

  /** `load_store(path)`: the records at `path`, none when the file does not exist;
      malformed JSON makes `json.load` raise. */
  function LoadStore(files: Files, path: string): Result<seq<Record>, Error>
  {
    if path !in files then Success([])
    else match files[path]
      case StoreJson(records) => Success(records)
      case MalformedJson => Failure(CorruptStore(path))
  }

  /** A store that does not exist loads as the empty list. */
  lemma LoadMissingStore(files: Files, path: string)
    requires path !in files
    ensures LoadStore(files, path) == Success([])
  {
  }

  /** `save_store` followed by `load_store` gives back exactly the records written. */
  lemma SaveThenLoad(files: Files, path: string, records: seq<Record>)
    ensures LoadStore(files[path := StoreJson(records)], path) == Success(records)
  {
  }

  /** Every path other than `path` holds what it held in `files`. */
  ghost predicate SameElsewhere(files: Files, files': Files, path: string) {
    forall p :: p != path ==> (p in files' <==> p in files) && (p in files ==> files'[p] == files[p])
  }

  /** The file system after `add_to_vector_store(class_id, text)`, or the exception it raises.
      The store is loaded before the text is embedded. */
  function AddedFiles(files: Files, classId: string, text: string, embed: string -> Option<Embedding>)
    : (r: Result<Files, Error>)
    ensures var loaded := LoadStore(files, StorePath(classId));
      if loaded.Failure? then r == Failure(loaded.error)
      else if embed(text).None? then r == Failure(EmbeddingUnavailable(text))
      else (r.Success?
        && LoadStore(r.value, StorePath(classId)) == Success(loaded.value + [Record(text, embed(text).value)])
        && SameElsewhere(files, r.value, StorePath(classId)))
  {
    var path := StorePath(classId);
    match LoadStore(files, path)
    case Failure(e) => Failure(e)
    case Success(store) =>
      match embed(text)
      case None => Failure(EmbeddingUnavailable(text))
      case Some(e) => Success(files[path := StoreJson(store + [Record(text, e)])])
  }

  /** The file system after `build_vector_store(class_id, text)`, or the exception it raises.
      The old store is never read. */
  function BuiltFiles(files: Files, classId: string, text: string, embed: string -> Option<Embedding>)
    : (r: Result<Files, Error>)
    ensures embed(text).None? ==> r == Failure(EmbeddingUnavailable(text))
    ensures embed(text).Some? ==> (r.Success?
      && LoadStore(r.value, StorePath(classId)) == Success([Record(text, embed(text).value)])
      && SameElsewhere(files, r.value, StorePath(classId)))
  {
    match embed(text)
    case None => Failure(EmbeddingUnavailable(text))
    case Some(e) => Success(files[StorePath(classId) := StoreJson([Record(text, e)])])
  }

  /** Rebuilding twice with the same text leaves the same files as rebuilding once. */
  lemma BuildIdempotent(files: Files, classId: string, text: string, embed: string -> Option<Embedding>)
    requires BuiltFiles(files, classId, text, embed).Success?
    ensures BuiltFiles(BuiltFiles(files, classId, text, embed).value, classId, text, embed)
         == BuiltFiles(files, classId, text, embed)
  {
    var once := BuiltFiles(files, classId, text, embed).value;
    assert once[StorePath(classId) := StoreJson([Record(text, embed(text).value)])] == once;
  }

  /** A rebuild does not depend on what the store held before, even a malformed file. */
  lemma BuildForgetsOldStore(files: Files, classId: string, old_: StoreFile, text: string,
                             embed: string -> Option<Embedding>)
    ensures BuiltFiles(files[StorePath(classId) := old_], classId, text, embed)
         == BuiltFiles(files, classId, text, embed)
  {
    var path := StorePath(classId);
    if embed(text).Some? {
      var rec := StoreJson([Record(text, embed(text).value)]);
      assert files[path := old_][path := rec] == files[path := rec];
    }
  }

  /** Every text of `texts` gets an embedding. */
  predicate AllEmbedded(texts: seq<string>, embed: string -> Option<Embedding>) {
    forall k :: 0 <= k < |texts| ==> embed(texts[k]).Some?
  }

  /** The records `add_to_vector_store` writes for `texts`, in call order. */
  function RecordsFor(texts: seq<string>, embed: string -> Option<Embedding>): seq<Record>
    requires AllEmbedded(texts, embed)
  {
    if texts == [] then []
    else
      var front := texts[..|texts| - 1];
      assert AllEmbedded(front, embed) by {
        assert forall k :: 0 <= k < |front| ==> front[k] == texts[k];
      }
      RecordsFor(front, embed) + [Record(texts[|texts| - 1], embed(texts[|texts| - 1]).value)]
  }

  /** `add_to_vector_store` called once per text, in order; the first exception stops the run. */
  function AddedAll(files: Files, classId: string, texts: seq<string>, embed: string -> Option<Embedding>)
    : Result<Files, Error>
  {
    if texts == [] then Success(files)
    else match AddedAll(files, classId, texts[..|texts| - 1], embed)
      case Failure(e) => Failure(e)
      case Success(f) => AddedFiles(f, classId, texts[|texts| - 1], embed)
  }

  /** After n successful appends the store holds the old records followed by exactly
      n new ones, in call order; from a missing store, exactly n records. */
  lemma {:induction false} AppendsInCallOrder(files: Files, classId: string, texts: seq<string>,
                                              embed: string -> Option<Embedding>)
    requires LoadStore(files, StorePath(classId)).Success?
    requires AllEmbedded(texts, embed)
    ensures var r := AddedAll(files, classId, texts, embed);
      r.Success? && LoadStore(r.value, StorePath(classId))
        == Success(LoadStore(files, StorePath(classId)).value + RecordsFor(texts, embed))
    ensures |RecordsFor(texts, embed)| == |texts|
  {
    var path := StorePath(classId);
    var before := LoadStore(files, path).value;
    if texts == [] {
      assert before + [] == before;
    } else {
      var n := |texts|;
      var front, last := texts[..n - 1], texts[n - 1];
      assert AllEmbedded(front, embed) by {
        assert forall k :: 0 <= k < |front| ==> front[k] == texts[k];
      }
      AppendsInCallOrder(files, classId, front, embed);
      var f := AddedAll(files, classId, front, embed).value;
      var a := RecordsFor(front, embed);
      var rec := Record(last, embed(last).value);
      assert AddedAll(files, classId, texts, embed) == AddedFiles(f, classId, last, embed);
      AddOne(f, classId, last, embed, before + a);
      assert RecordsFor(texts, embed) == a + [rec];
      assert (before + a) + [rec] == before + (a + [rec]);
    }
  }

  /** One successful append to a store that loads as `s`. */
  lemma AddOne(f: Files, classId: string, text: string, embed: string -> Option<Embedding>, s: seq<Record>)
    requires LoadStore(f, StorePath(classId)) == Success(s) && embed(text).Some?
    ensures AddedFiles(f, classId, text, embed).Success?
    ensures LoadStore(AddedFiles(f, classId, text, embed).value, StorePath(classId))
         == Success(s + [Record(text, embed(text).value)])
  {
  }

  /** An add for one class leaves the store of every other class (without `/` in its id) as it was. */
  lemma AddLeavesOtherClasses(files: Files, classId: string, other: string, text: string,
                              embed: string -> Option<Embedding>)
    requires classId != "" && '/' !in classId && other != "" && '/' !in other && other != classId
    requires AddedFiles(files, classId, text, embed).Success?
    ensures LoadStore(AddedFiles(files, classId, text, embed).value, StorePath(other))
         == LoadStore(files, StorePath(other))
  {
    if StorePath(other) == StorePath(classId) {
      StorePathInjective(other, classId);
    }
  }

  // ---------------- Similarity search ----------------

  /** The score of each record against the query vector, in store order. */
  function Scores(store: seq<Record>, q: Embedding, score: (Embedding, Embedding) -> Option<real>)
    : (r: seq<Option<real>>)
    ensures |r| == |store|
    ensures forall k :: 0 <= k < |store| ==> r[k] == score(q, store[k].embedding)
  {
    seq(|store|, k requires 0 <= k < |store| => score(q, store[k].embedding))
  }

  /** `score > best`, where a NaN score (None) is never greater. */
  predicate Beats(s: Option<real>, best: real) {
    s.Some? && s.value > best
  }

  /** Record `i` is the one the scan keeps: its score beats the sentinel, is strictly
      greater than every earlier comparable score and no later score beats it. */
  ghost predicate Winner(scores: seq<Option<real>>, i: int) {
    && 0 <= i < |scores|
    && Beats(scores[i], Sentinel)
    && (forall j :: 0 <= j < i && scores[j].Some? ==> scores[j].value < scores[i].value)
    && (forall j :: i < j < |scores| ==> !Beats(scores[j], scores[i].value))
  }

  /** No score beats the sentinel: every score is NaN or at most -999. */
  ghost predicate NoWinner(scores: seq<Option<real>>) {
    forall j :: 0 <= j < |scores| ==> !Beats(scores[j], Sentinel)
  }

  /** `best` is what `search_vector_store` returns for a store with these scores. */
  ghost predicate IsBestMatch(store: seq<Record>, scores: seq<Option<real>>, best: Option<string>)
    requires |scores| == |store|
  {
    match best
    case None => NoWinner(scores)
    case Some(t) => exists i :: Winner(scores, i) && store[i].text == t
  }

  /** Some record is chosen whenever some score beats the sentinel. */
  lemma {:induction false} WinnerExists(scores: seq<Option<real>>)
    requires !NoWinner(scores)
    ensures exists i :: Winner(scores, i)
  {
    var n := |scores|;
    var front := scores[..n - 1];
    assert forall j :: 0 <= j < n - 1 ==> front[j] == scores[j];
    if NoWinner(front) {
      assert Beats(scores[n - 1], Sentinel);
      assert Winner(scores, n - 1);
    } else {
      WinnerExists(front);
      var i :| Winner(front, i);
      if Beats(scores[n - 1], scores[i].value) {
        assert Winner(scores, n - 1);
      } else {
        assert Winner(scores, i);
      }
    }
  }

  /** One more step of the scan when a record is already kept: the next record
      takes over exactly when its score is strictly greater. */
  lemma WinnerExtend(scores: seq<Option<real>>, k: nat, i: int)
    requires k < |scores| && Winner(scores[..k], i)
    ensures Beats(scores[k], scores[i].value) ==> Winner(scores[..k + 1], k)
    ensures !Beats(scores[k], scores[i].value) ==> Winner(scores[..k + 1], i)
  {
    assert forall j :: 0 <= j < k ==> scores[..k][j] == scores[j];
    assert forall j :: 0 <= j <= k ==> scores[..k + 1][j] == scores[j];
  }

  /** One more step of the scan when nothing is kept yet: the next record is kept
      exactly when its score beats the sentinel. */
  lemma NoWinnerExtend(scores: seq<Option<real>>, k: nat)
    requires k < |scores| && NoWinner(scores[..k])
    ensures Beats(scores[k], Sentinel) ==> Winner(scores[..k + 1], k)
    ensures !Beats(scores[k], Sentinel) ==> NoWinner(scores[..k + 1])
  {
    assert forall j :: 0 <= j < k ==> scores[..k][j] == scores[j];
    assert forall j :: 0 <= j <= k ==> scores[..k + 1][j] == scores[j];
  }

  /** At most one record is chosen. */
  lemma WinnerUnique(scores: seq<Option<real>>, i: int, k: int)
    requires Winner(scores, i) && Winner(scores, k)
    ensures i == k
  {
  }

  /** The chosen record has a maximal score, and on a tie the first such record wins. */
  lemma WinnerIsFirstMaximum(scores: seq<Option<real>>, i: int)
    requires Winner(scores, i)
    ensures scores[i].Some? && scores[i].value > Sentinel
    ensures forall j :: 0 <= j < |scores| && scores[j].Some? ==> scores[j].value <= scores[i].value
    ensures forall j :: 0 <= j < i ==> scores[j] != scores[i]
  {
  }

  /** A search answers None exactly when no score beats the sentinel, and an answer
      is the text of a stored record. */
  lemma BestMatchNoneIff(store: seq<Record>, scores: seq<Option<real>>, best: Option<string>)
    requires |scores| == |store|
    requires IsBestMatch(store, scores, best)
    ensures best.None? <==> NoWinner(scores)
    ensures best.Some? ==> exists r :: r in store && r.text == best.value
  {
    if best.Some? {
      var i :| Winner(scores, i) && store[i].text == best.value;
      assert Beats(scores[i], Sentinel);
      assert store[i] in store;
    }
  }

  /** The search result is determined by the store and the scores. */
  lemma BestMatchDetermined(store: seq<Record>, scores: seq<Option<real>>, b1: Option<string>, b2: Option<string>)
    requires |scores| == |store|
    requires IsBestMatch(store, scores, b1) && IsBestMatch(store, scores, b2)
    ensures b1 == b2
  {
    BestMatchNoneIff(store, scores, b1);
    BestMatchNoneIff(store, scores, b2);
    if b1.Some? && b2.Some? {
      var i :| Winner(scores, i) && store[i].text == b1.value;
      var k :| Winner(scores, k) && store[k].text == b2.value;
      WinnerUnique(scores, i, k);
    }
  }

  /** After a rebuild the store holds one record, so a search answers its text exactly
      when its score is a number above the sentinel, and None otherwise. */
  lemma SearchAfterRebuild(rec: Record, s: Option<real>, best: Option<string>)
    requires IsBestMatch([rec], [s], best)
    ensures best == if Beats(s, Sentinel) then Some(rec.text) else None
  {
    if best.Some? {
      var i :| Winner([s], i) && [rec][i].text == best.value;
      assert i == 0 && Beats(s, Sentinel);
    } else {
      assert !Beats([s][0], Sentinel);
    }
  }

  /** The loop of `search_vector_store`: a running best score starting at the sentinel,
      replaced only by a strictly greater score, and the text that went with it. */
  method ScanForBest(store: seq<Record>, q: Embedding, score: (Embedding, Embedding) -> Option<real>)
    returns (bestText: Option<string>)
    ensures IsBestMatch(store, Scores(store, q, score), bestText)
  {
    ghost var scores := Scores(store, q, score);

    var bestScore := Sentinel;
    bestText := None;
    ghost var bestIndex := 0;
    var k := 0;
    while k < |store|
      invariant 0 <= k <= |store|
      invariant bestText.None? ==> bestScore == Sentinel && NoWinner(scores[..k])
      invariant bestText.Some? ==> (bestIndex < k && Winner(scores[..k], bestIndex)
        && bestText.value == store[bestIndex].text && scores[bestIndex] == Some(bestScore))
    {
      var s := score(q, store[k].embedding);
      assert s == scores[k];
      if bestText.None? {
        NoWinnerExtend(scores, k);
      } else {
        WinnerExtend(scores, k, bestIndex);
      }
      if s.Some? && s.value > bestScore {
        bestScore := s.value;
        bestText := Some(store[k].text);
        bestIndex := k;
      }
      k := k + 1;
    }
    assert scores[..k] == scores;
  }

  /** The upload directory as the three operations see it. */
  class VectorStoreDisk {
    var files: Files

    constructor(initial: Files)
      ensures files == initial
    {
      files := initial;
    }

    /** `add_to_vector_store(class_id, text)`: load the class's store, embed the text,
        append one record and write the whole list back. */
    method AddToVectorStore(classId: string, text: string, embed: string -> Option<Embedding>)
      returns (r: Outcome<Error>)
      modifies this
      ensures match AddedFiles(old(files), classId, text, embed)
        case Success(f) => r == Pass && files == f
        case Failure(e) => r == Fail(e) && files == old(files)
    {
      var path := StorePath(classId);
      var loaded := LoadStore(files, path);
      if loaded.Failure? {
        return Fail(loaded.error);
      }
      var store := loaded.value;
      var embedding := embed(text);
      if embedding.None? {
        return Fail(EmbeddingUnavailable(text));
      }
      store := store + [Record(text, embedding.value)];
      files := files[path := StoreJson(store)];
      r := Pass;
    }

    /** `build_vector_store(class_id, text)`: embed the text and overwrite the class's
        store with exactly one record. */
    method BuildVectorStore(classId: string, text: string, embed: string -> Option<Embedding>)
      returns (r: Outcome<Error>)
      modifies this
      ensures match BuiltFiles(old(files), classId, text, embed)
        case Success(f) => r == Pass && files == f
        case Failure(e) => r == Fail(e) && files == old(files)
    {
      var path := StorePath(classId);
      var embedding := embed(text);
      if embedding.None? {
        return Fail(EmbeddingUnavailable(text));
      }
      files := files[path := StoreJson([Record(text, embedding.value)])];
      r := Pass;
    }

    /** `search_vector_store(class_id, query)`: an empty store answers None before the
        query is embedded; otherwise every record is scored and the text of the first
        record with the highest score above the sentinel is returned. */
    method SearchVectorStore(classId: string, query: string, embed: string -> Option<Embedding>,
                             score: (Embedding, Embedding) -> Option<real>)
      returns (r: Result<Option<string>, Error>)
      ensures match LoadStore(files, StorePath(classId))
        case Failure(e) => r == Failure(e)
        case Success(store) =>
          if store == [] then r == Success(None)
          else if embed(query).None? then r == Failure(EmbeddingUnavailable(query))
          else r.Success? && IsBestMatch(store, Scores(store, embed(query).value, score), r.value)
    {
      var loaded := LoadStore(files, StorePath(classId));
      if loaded.Failure? {
        return Failure(loaded.error);
      }
      var store := loaded.value;
      if |store| == 0 {
        return Success(None);
      }
      var queryEmbedding := embed(query);
      if queryEmbedding.None? {
        return Failure(EmbeddingUnavailable(query));
      }
      var bestText := ScanForBest(store, queryEmbedding.value, score);
      r := Success(bestText);
    }
  }
}
