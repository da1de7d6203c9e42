/**
 * The core of the upload route: classify the file by its extension, pick the
 * text extractor, turn extractor failures and unknown types into placeholder
 * text, and record the result in the session.
 *
 * Saving the uploaded bytes and the extractors themselves (plain text, PDF,
 * slides, audio transcription) are outside the model: `extract` gives what the
 * chosen extractor returns for this upload, or the message of what it raised.
 */
module Uploads {
  import opened Wrappers
  import opened Strings
  import opened StudySessions

  /** `s.split(".")[-1]`: the part after the last `.`, or all of `s` when it has none. */
  function LastSegment(s: string): (r: string)
    ensures |r| <= |s| && r == s[|s| - |r|..]
    ensures '.' !in r
    ensures |r| < |s| ==> s[|s| - |r| - 1] == '.'
  {
    if s == [] then []
    else if s[|s| - 1] == '.' then []
    else LastSegment(s[..|s| - 1]) + [s[|s| - 1]]
  }

  /** A name without a dot is its own last segment. */
  lemma LastSegmentWithoutDot(s: string)
    requires '.' !in s
    ensures LastSegment(s) == s
  {
  }

  /** In a name with a dot, the last segment follows a dot. */
  lemma LastSegmentAfterDot(s: string)
    requires '.' in s
    ensures exists prefix :: s == prefix + "." + LastSegment(s)
  {
    var r := LastSegment(s);
    var prefix := s[..|s| - |r| - 1];
    assert s == prefix + "." + r;
  }

  /** Whatever precedes the last dot, the segment after it is the extension. */
  lemma {:induction false} LastSegmentAfterLastDot(prefix: string, e: string)
    requires '.' !in e
    ensures LastSegment(prefix + "." + e) == e
  {
    var s := prefix + "." + e;
    if e == [] {
      assert s[|s| - 1] == '.';
    } else {
      var front := e[..|e| - 1];
      assert e[|e| - 1] in e;
      assert forall c :: c in front ==> c in e;
      assert s[..|s| - 1] == prefix + "." + front;
      LastSegmentAfterLastDot(prefix, front);
      assert front + [e[|e| - 1]] == e;
    }
  }

  /** `filename.split(".")[-1].lower()`. */
  function Extension(filename: string): string {
    Lower(LastSegment(filename))
  }

  /** The extensions stored and transcribed as audio. */
  const AudioExtensions: seq<string> := ["mp4", "m4a", "wav", "webm"]

  /** The `kind` recorded for an upload: audio for the audio extensions, document otherwise. */
  function KindOf(ext: string): string {
    if ext in AudioExtensions then "audio" else "document"
  }

  /** The extractor chosen for an extension. */
  datatype Extractor = PlainText | Pdf | Slides | Transcriber | Unsupported(ext: string)

  /** The extraction branch of the upload route, tested in the route's order. */
  function ExtractorFor(ext: string): Extractor {
    if ext == "txt" then PlainText
    else if ext == "pdf" then Pdf
    else if ext == "pptx" then Slides
    else if ext in AudioExtensions then Transcriber
    else Unsupported(ext)
  }

  /** Exactly the audio kind is transcribed, only the seven known extensions have an
      extractor, and an unsupported upload keeps its extension for the message. */
  lemma ClassificationAgrees(ext: string)
    ensures KindOf(ext) == "audio" <==> ExtractorFor(ext) == Transcriber
    ensures KindOf(ext) == "audio" || KindOf(ext) == "document"
    ensures ExtractorFor(ext).Unsupported? <==> ext !in ["txt", "pdf", "pptx"] + AudioExtensions
    ensures ExtractorFor(ext).Unsupported? ==> ExtractorFor(ext).ext == ext
  {
  }

  /** The text recorded for an upload: what the extractor returned, a placeholder naming
      the file when it raised, or a placeholder naming the extension when there is none. */
  function UploadText(filename: string, extract: Extractor -> Result<string, string>): string {
    match ExtractorFor(Extension(filename))
    case Unsupported(ext) => "[Unsupported file type: " + ext + "]"
    case x =>
      match extract(x)
      case Success(text) => text
      case Failure(message) => "[Error processing file " + filename + ": " + message + "]"
  }

  /** An upload with no extractor records a placeholder naming its extension, and no
      extractor is consulted. */
  lemma UploadTextUnsupported(filename: string, extract: Extractor -> Result<string, string>)
    ensures ExtractorFor(Extension(filename)).Unsupported? ==>
      UploadText(filename, extract) == "[Unsupported file type: " + Extension(filename) + "]"
  {
    ClassificationAgrees(Extension(filename));
  }

  /** An upload with an extractor records the extracted text as it is, or, when the
      extractor raised, a placeholder naming the file and the error. */
  lemma UploadTextExtracted(filename: string, extract: Extractor -> Result<string, string>)
    ensures !ExtractorFor(Extension(filename)).Unsupported? ==>
      UploadText(filename, extract) ==
        match extract(ExtractorFor(Extension(filename)))
        case Success(text) => text
        case Failure(message) => "[Error processing file " + filename + ": " + message + "]"
  {
  }

  /** An upper-case extension classifies like the lower-case one. */
  lemma UpperCaseExtension()
    ensures Extension("Lecture.MP4") == "mp4" && KindOf("mp4") == "audio" && ExtractorFor("mp4") == Transcriber
  {
    LastSegmentAfterLastDot("Lecture", "MP4");
    assert "Lecture" + "." + "MP4" == "Lecture.MP4";
    var e := Extension("Lecture.MP4");
    assert e[0] == 'm' && e[1] == 'p' && e[2] == '4';
  }

  /** Only the last dot counts. */
  lemma LastDotDecides()
    ensures Extension("notes.v2.pdf") == "pdf" && ExtractorFor("pdf") == Pdf && KindOf("pdf") == "document"
  {
    LastSegmentAfterLastDot("notes.v2", "pdf");
    assert "notes.v2" + "." + "pdf" == "notes.v2.pdf";
    var e := Extension("notes.v2.pdf");
    assert e[0] == 'p' && e[1] == 'd' && e[2] == 'f';
  }

  /** A name ending in a dot has the empty extension, which is unsupported. */
  lemma TrailingDot()
    ensures Extension("draft.") == "" && ExtractorFor("") == Unsupported("")
  {
  }

  /** The upload route after the file is saved: get or create the session, classify the
      file, extract its text and append one record to the session. */
  method UploadMaterial(store: SessionStore, sessionId: Option<string>, filename: string,
                        extract: Extractor -> Result<string, string>, freshId: string, now: string)
    returns (id: string)
    modifies store
    ensures id == if IsKnown(old(store.sessions), sessionId) then sessionId.value else freshId
    ensures var base := if IsKnown(old(store.sessions), sessionId) then old(store.sessions)
                        else old(store.sessions)[freshId := Session(now, [])];
      id in base && store.sessions ==
        WithFile(base, id, FileRecord(filename, KindOf(Extension(filename)), UploadText(filename, extract), now))
    ensures store.file == Parsed(store.sessions)
  {
    id := store.GetOrCreateSession(sessionId, freshId, now);
    var ext := Extension(filename);
    var kind := KindOf(ext);
    var text := UploadText(filename, extract);
    ghost var base := store.sessions;
    assert id in base;
    store.AddTextToSession(id, filename, kind, text, freshId, now);
    assert store.sessions == WithFile(base, id, FileRecord(filename, kind, text, now));
  }
}
