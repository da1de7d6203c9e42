/**
 * The session store of the study assistant: a map from session id to a session
 * holding the list of uploaded files with their extracted text, mirrored to
 * `sessions.json` after every change, and the aggregation of a session's
 * material into one text for the study tools.
 *
 * `uuid.uuid4()` is a fresh-id parameter and `datetime.utcnow().isoformat()`
 * a timestamp parameter.
 */
module StudySessions {
  import opened Wrappers
  import opened Strings

  /** One uploaded file: `{"name", "type", "text", "added_at"}`. */
  datatype FileRecord = FileRecord(name: string, kind: string, text: string, addedAt: string)

  /** One session: `{"created_at", "files"}`, files in upload order. */
  datatype Session = Session(createdAt: string, files: seq<FileRecord>)

  type Sessions = map<string, Session>

  /** What `sessions.json` holds: nothing, text `json.load` rejects, or a parsed mapping. */
  datatype SessionsFile = Missing | Malformed | Parsed(sessions: Sessions)

  /** `load_sessions()`: the parsed mapping, or `{}` when the file is missing or malformed. */
  function LoadSessions(file: SessionsFile): Sessions
  {
    match file
    case Parsed(m) => m
    case _ => map[]
  }

  /** A missing or malformed file loads as no sessions, and what `save_sessions`
      writes loads back unchanged. */
  lemma LoadSessionsSpec(file: SessionsFile, m: Sessions)
    ensures (file.Missing? || file.Malformed?) ==> LoadSessions(file) == map[]
    ensures LoadSessions(Parsed(m)) == m
  {
  }

  /** `session_id and session_id in sessions`: a given, non-empty, known id. */
  predicate IsKnown(sessions: Sessions, sessionId: Option<string>) {
    sessionId.Some? && sessionId.value != "" && sessionId.value in sessions
  }

  /** `sessions` after appending `f` to the files of the session `id`. */
  function WithFile(sessions: Sessions, id: string, f: FileRecord): Sessions
    requires id in sessions
  {
    sessions[id := sessions[id].(files := sessions[id].files + [f])]
  }

  /** The text block of one file: `--- name (type) ---` on its own line, then the text. */
  function Block(f: FileRecord): string {
    "--- " + f.name + " (" + f.kind + ") ---\n" + f.text
  }

  /** The blocks of the files with non-empty text, in upload order. */
  function Blocks(files: seq<FileRecord>): seq<string>
  {
    if files == [] then []
    else Blocks(files[..|files| - 1]) + (if files[|files| - 1].text != "" then [Block(files[|files| - 1])] else [])
  }

  /** The aggregated material of a list of files: their blocks joined by a blank line. */
  function Material(files: seq<FileRecord>): string {
    Join("\n\n", Blocks(files))
  }

  /** `get_session_text(session_id)`: the material of a known session, `""` otherwise. */
  function SessionText(sessions: Sessions, id: string): (r: string)
    ensures id !in sessions ==> r == ""
  {
    if id in sessions then Material(sessions[id].files) else ""
  }

  /** Blocks keep upload order: the blocks of two lists of files are the blocks of each, concatenated. */
  lemma {:induction false} BlocksConcat(a: seq<FileRecord>, b: seq<FileRecord>)
    ensures Blocks(a + b) == Blocks(a) + Blocks(b)
  {
    if b == [] {
      assert a + b == a;
    } else {
      var n := |b|;
      assert (a + b)[..|a + b| - 1] == a + b[..n - 1];
      BlocksConcat(a, b[..n - 1]);
    }
  }

  /** A file contributes one block exactly when its text is non-empty. */
  lemma BlocksOne(f: FileRecord)
    ensures Blocks([f]) == if f.text != "" then [Block(f)] else []
  {
    assert [f][..0] == [];
  }

  /** Every block starts with the header `--- `. */
  lemma {:induction false} BlocksStartWithHeader(files: seq<FileRecord>)
    ensures forall k :: 0 <= k < |Blocks(files)| ==> "--- " <= Blocks(files)[k]
  {
    if files != [] {
      BlocksStartWithHeader(files[..|files| - 1]);
    }
  }

  /** The material is empty exactly when no file has non-empty text. */
  lemma MaterialEmptyIff(files: seq<FileRecord>)
    ensures Material(files) == "" <==> forall k :: 0 <= k < |files| ==> files[k].text == ""
  {
    BlocksEmptyIff(files);
    if Blocks(files) != [] {
      BlocksStartWithHeader(files);
      JoinStartsWithFirst("\n\n", Blocks(files));
    }
  }

  /** No file contributes a block exactly when every text is empty. */
  lemma {:induction false} BlocksEmptyIff(files: seq<FileRecord>)
    ensures Blocks(files) == [] <==> forall k :: 0 <= k < |files| ==> files[k].text == ""
  {
    if files != [] {
      var front := files[..|files| - 1];
      BlocksEmptyIff(front);
      assert forall k :: 0 <= k < |front| ==> front[k] == files[k];
    }
  }

  /** Appending a file with non-empty text extends the material by one block, after a
      blank line unless the material was empty; a file with empty text changes nothing. */
  lemma MaterialAfterAppend(files: seq<FileRecord>, f: FileRecord)
    ensures Material(files + [f]) ==
      if f.text == "" then Material(files)
      else if Material(files) == "" then Block(f)
      else Material(files) + "\n\n" + Block(f)
  {
    BlocksConcat(files, [f]);
    BlocksOne(f);
    if f.text != "" {
      JoinSnoc("\n\n", Blocks(files), Block(f));
      if Blocks(files) != [] {
        BlocksStartWithHeader(files);
        JoinStartsWithFirst("\n\n", Blocks(files));
      }
    } else {
      assert Blocks(files) + [] == Blocks(files);
    }
  }

  /** What a study tool receives: None, shown as "No material uploaded yet.", when the
      session text is only whitespace; otherwise the text put into its prompt. */
  function ToolMaterial(sessions: Sessions, id: string): Option<string>
  {
    var text := SessionText(sessions, id);
    if Strip(text) == "" then None else Some(text)
  }

  /** A study tool sees no material exactly when the session is unknown or every
      uploaded file has empty text; whitespace-only texts still count as material,
      because each block carries its header. */
  lemma NoMaterialIff(sessions: Sessions, id: string)
    ensures ToolMaterial(sessions, id).None? <==>
      (id !in sessions || forall k :: 0 <= k < |sessions[id].files| ==> sessions[id].files[k].text == "")
  {
    if id in sessions {
      MaterialBlankIff(sessions[id].files);
      MaterialEmptyIff(sessions[id].files);
    }
  }

  /** The material is blank (only whitespace) exactly when it is empty. */
  lemma MaterialBlankIff(files: seq<FileRecord>)
    ensures Strip(Material(files)) == "" <==> Material(files) == ""
  {
    var text := Material(files);
    StripEmptyIff(text);
    if text != "" {
      assert Blocks(files) != [];
      BlocksStartWithHeader(files);
      JoinStartsWithFirst("\n\n", Blocks(files));
      assert text[0] == Blocks(files)[0][0] == '-';
      assert !IsSpace(text[0]);
    }
  }

  /** The process-global `sessions` dictionary and its file `sessions.json`. */
  class SessionStore {
    var sessions: Sessions
    var file: SessionsFile

    /** Module load: `sessions = load_sessions()`. */
    constructor(initial: SessionsFile)
      ensures sessions == LoadSessions(initial) && file == initial
    {
      sessions := LoadSessions(initial);
      file := initial;
    }

    /** `save_sessions(sessions)`: the file now holds the in-memory mapping. */
    method SaveSessions()
      modifies this`file
      ensures file == Parsed(sessions) && LoadSessions(file) == sessions
    {
      file := Parsed(sessions);
    }

    /** `get_or_create_session(session_id)`: a known id is returned and nothing changes;
        otherwise `freshId` names a new session with no files, which is saved. */
    method GetOrCreateSession(sessionId: Option<string>, freshId: string, now: string) returns (id: string)
      modifies this
      ensures IsKnown(old(sessions), sessionId) ==>
        id == sessionId.value && sessions == old(sessions) && file == old(file)
      ensures !IsKnown(old(sessions), sessionId) ==>
        id == freshId && sessions == old(sessions)[freshId := Session(now, [])]
        && file == Parsed(sessions)
      ensures id in sessions
    {
      if sessionId.Some? && sessionId.value != "" && sessionId.value in sessions {
        return sessionId.value;
      }
      id := freshId;
      sessions := sessions[id := Session(now, [])];
      SaveSessions();
    }

    /** `add_text_to_session(session_id, filename, file_type, text)`: an unknown id first
        gets a new session from `get_or_create_session(None)`; then one record is
        appended to the end of the target session's files and everything is saved. */
    method AddTextToSession(sessionId: string, filename: string, fileType: string, text: string,
                            freshId: string, now: string)
      modifies this
      ensures var target := if sessionId in old(sessions) then sessionId else freshId;
        var base := if sessionId in old(sessions) then old(sessions)
                    else old(sessions)[freshId := Session(now, [])];
        target in base && sessions == WithFile(base, target, FileRecord(filename, fileType, text, now))
      ensures file == Parsed(sessions)
      ensures var target := if sessionId in old(sessions) then sessionId else freshId;
        var before := if sessionId in old(sessions) then SessionText(old(sessions), sessionId) else "";
        SessionText(sessions, target) ==
          if text == "" then before
          else if before == "" then Block(FileRecord(filename, fileType, text, now))
          else before + "\n\n" + Block(FileRecord(filename, fileType, text, now))
    {
      var target := sessionId;
      if sessionId !in sessions {
        target := GetOrCreateSession(None, freshId, now);
      }
      var record := FileRecord(filename, fileType, text, now);
      MaterialAfterAppend(sessions[target].files, record);
      sessions := WithFile(sessions, target, record);
      SaveSessions();
    }
  }
}
