/** The SQLite store of src/db.js: the four tables as in-memory sequences of
    rows, the schema's constraints as the store's invariant, and the
    module-level connection handle with its init-once / close lifecycle. */
module Db {
  import opened Common

  datatype SessionRow = SessionRow(id: string, createdAt: int, lastActivity: int)

  datatype MessageRow = MessageRow(id: string, sessionId: string, role: string, content: string, createdAt: int)

  datatype DocumentRow = DocumentRow(
    id: string, filename: string, originalFilename: string, mimeType: string,
    filePath: string, fileSize: int, contentHash: string, createdAt: int, updatedAt: int)

  datatype ChunkRow = ChunkRow(
    id: string, documentId: string, chunkIndex: int, content: string, contentHash: string, createdAt: int)

  /** The contents of the whole database at one moment. */
  datatype Tables = Tables(
    sessions: seq<SessionRow>, messages: seq<MessageRow>,
    documents: seq<DocumentRow>, chunks: seq<ChunkRow>)

  /** `CHECK (role IN ('user', 'assistant'))` on messages. */
  predicate ValidRole(role: string) {
    role == "user" || role == "assistant"
  }

  function SessionIds(ss: seq<SessionRow>): set<string> { set s | s in ss :: s.id }
  function MessageIds(ms: seq<MessageRow>): set<string> { set m | m in ms :: m.id }
  function DocumentIds(ds: seq<DocumentRow>): set<string> { set d | d in ds :: d.id }
  function ChunkIds(cs: seq<ChunkRow>): set<string> { set c | c in cs :: c.id }

  predicate UniqueSessionIds(ss: seq<SessionRow>) { forall i, j :: 0 <= i < j < |ss| ==> ss[i].id != ss[j].id }
  predicate UniqueMessageIds(ms: seq<MessageRow>) { forall i, j :: 0 <= i < j < |ms| ==> ms[i].id != ms[j].id }
  predicate UniqueDocumentIds(ds: seq<DocumentRow>) { forall i, j :: 0 <= i < j < |ds| ==> ds[i].id != ds[j].id }
  predicate UniqueChunkIds(cs: seq<ChunkRow>) { forall i, j :: 0 <= i < j < |cs| ==> cs[i].id != cs[j].id }

  /** `id TEXT PRIMARY KEY` on each table: no two rows share an id. */
  predicate PrimaryKeys(t: Tables) {
    UniqueSessionIds(t.sessions) && UniqueMessageIds(t.messages)
    && UniqueDocumentIds(t.documents) && UniqueChunkIds(t.chunks)
  }

  /** The foreign keys (enforced with `PRAGMA foreign_keys = ON`) and the
      role CHECK. */
  predicate References(t: Tables) {
    && (forall m :: m in t.messages ==> ValidRole(m.role) && m.sessionId in SessionIds(t.sessions))
    && (forall c :: c in t.chunks ==> c.documentId in DocumentIds(t.documents))
  }

  /** Every constraint of the schema. */
  predicate Consistent(t: Tables) {
    PrimaryKeys(t) && References(t)
  }

  /** `INSERT INTO messages` succeeds exactly when the row meets the schema. */
  predicate MessageInsertable(t: Tables, row: MessageRow) {
    row.id !in MessageIds(t.messages) && ValidRole(row.role) && row.sessionId in SessionIds(t.sessions)
  }

  predicate DocumentInsertable(t: Tables, row: DocumentRow) {
    row.id !in DocumentIds(t.documents)
  }

  predicate ChunkInsertable(t: Tables, row: ChunkRow) {
    row.id !in ChunkIds(t.chunks) && row.documentId in DocumentIds(t.documents)
  }

  /** `UPDATE sessions SET last_activity = now WHERE id = sid`. */
  function TouchActivity(ss: seq<SessionRow>, sid: string, now: int): (r: seq<SessionRow>)
    ensures |r| == |ss|
    ensures forall i :: 0 <= i < |ss| ==>
      r[i] == if ss[i].id == sid then ss[i].(lastActivity := now) else ss[i]
    decreases |ss|
  {
    if |ss| == 0 then []
    else [if ss[0].id == sid then ss[0].(lastActivity := now) else ss[0]] + TouchActivity(ss[1..], sid, now)
  }

  /** Touching a session changes no identifier, so it never creates a
      session: an id that is not in the table stays out of it. */
  lemma TouchKeepsIds(ss: seq<SessionRow>, sid: string, now: int)
    ensures SessionIds(TouchActivity(ss, sid, now)) == SessionIds(ss)
    ensures sid !in SessionIds(ss) ==> TouchActivity(ss, sid, now) == ss
  {
    var r := TouchActivity(ss, sid, now);
    forall x | x in SessionIds(ss) ensures x in SessionIds(r) {
      var s :| s in ss && s.id == x;
      var i :| 0 <= i < |ss| && ss[i] == s;
      assert r[i].id == x;
    }
    forall x | x in SessionIds(r) ensures x in SessionIds(ss) {
      var s :| s in r && s.id == x;
      var i :| 0 <= i < |r| && r[i] == s;
      assert ss[i].id == x;
    }
  }

  /** `DELETE FROM messages WHERE session_id = sid`. */
  function MessagesNotOf(ms: seq<MessageRow>, sid: string): (r: seq<MessageRow>)
    ensures forall m :: m in r <==> m in ms && m.sessionId != sid
    ensures |r| <= |ms|
    decreases |ms|
  {
    if |ms| == 0 then []
    else if ms[0].sessionId == sid then MessagesNotOf(ms[1..], sid)
    else [ms[0]] + MessagesNotOf(ms[1..], sid)
  }

  /** Clearing a session twice is the same as clearing it once. */
  lemma {:induction false} MessagesNotOfIdempotent(ms: seq<MessageRow>, sid: string)
    ensures MessagesNotOf(MessagesNotOf(ms, sid), sid) == MessagesNotOf(ms, sid)
    decreases |ms|
  {
    if |ms| > 0 {
      MessagesNotOfIdempotent(ms[1..], sid);
    }
  }

  /** Deleting keeps the remaining rows in their order: the result is what
      is left of `ms` and ids stay unique. */
  lemma {:induction false} MessagesNotOfKeepsKeys(ms: seq<MessageRow>, sid: string)
    requires UniqueMessageIds(ms)
    ensures UniqueMessageIds(MessagesNotOf(ms, sid))
    decreases |ms|
  {
    if |ms| > 0 {
      UniqueMessageTail(ms);
      MessagesNotOfKeepsKeys(ms[1..], sid);
      if ms[0].sessionId != sid {
        UniqueMessageCons(ms[0], MessagesNotOf(ms[1..], sid));
      }
    }
  }

  lemma UniqueMessageTail(ms: seq<MessageRow>)
    requires UniqueMessageIds(ms) && |ms| > 0
    ensures UniqueMessageIds(ms[1..])
    ensures forall x :: x in ms[1..] ==> x.id != ms[0].id
  {
    forall x | x in ms[1..] ensures x.id != ms[0].id {
      var k :| 0 <= k < |ms[1..]| && ms[1..][k] == x;
      assert ms[k + 1] == x;
    }
  }

  lemma UniqueMessageCons(x: MessageRow, r: seq<MessageRow>)
    requires UniqueMessageIds(r) && forall y :: y in r ==> y.id != x.id
    ensures UniqueMessageIds([x] + r)
  {
    var out := [x] + r;
    forall i, j | 0 <= i < j < |out| ensures out[i].id != out[j].id {
      if i == 0 {
        assert out[j] == r[j - 1] && out[j] in r;
      } else {
        assert out[i] == r[i - 1] && out[j] == r[j - 1];
      }
    }
  }

  function SessionsWithout(ss: seq<SessionRow>, sid: string): (r: seq<SessionRow>)
    ensures forall s :: s in r <==> s in ss && s.id != sid
    ensures SessionIds(r) == SessionIds(ss) - {sid}
    decreases |ss|
  {
    if |ss| == 0 then []
    else if ss[0].id == sid then SessionsWithout(ss[1..], sid)
    else
      var r := SessionsWithout(ss[1..], sid);
      assert ss == [ss[0]] + ss[1..];
      [ss[0]] + r
  }

  /** `DELETE FROM documents WHERE id = id`. */
  function DocumentsWithout(ds: seq<DocumentRow>, id: string): (r: seq<DocumentRow>)
    ensures forall d :: d in r <==> d in ds && d.id != id
    ensures DocumentIds(r) == DocumentIds(ds) - {id}
    ensures |r| <= |ds|
    decreases |ds|
  {
    if |ds| == 0 then []
    else if ds[0].id == id then DocumentsWithout(ds[1..], id)
    else
      var r := DocumentsWithout(ds[1..], id);
      assert ds == [ds[0]] + ds[1..];
      [ds[0]] + r
  }

  /** `ON DELETE CASCADE` from documents to document_chunks. */
  function ChunksNotOf(cs: seq<ChunkRow>, docId: string): (r: seq<ChunkRow>)
    ensures forall c :: c in r <==> c in cs && c.documentId != docId
    ensures |r| <= |cs|
    decreases |cs|
  {
    if |cs| == 0 then []
    else if cs[0].documentId == docId then ChunksNotOf(cs[1..], docId)
    else [cs[0]] + ChunksNotOf(cs[1..], docId)
  }

  /** `COUNT(dc.id)` over the chunks of one document. */
  function ChunkCount(cs: seq<ChunkRow>, docId: string): (n: nat)
    ensures n <= |cs|
    ensures n == 0 <==> forall c :: c in cs ==> c.documentId != docId
    decreases |cs|
  {
    if |cs| == 0 then 0
    else (if cs[0].documentId == docId then 1 else 0) + ChunkCount(cs[1..], docId)
  }

  /** Once a document's chunks are cascaded away its chunk count is 0, and
      every other document keeps its count. */
  lemma {:induction false} CascadeCount(cs: seq<ChunkRow>, docId: string, other: string)
    ensures ChunkCount(ChunksNotOf(cs, docId), docId) == 0
    ensures other != docId ==> ChunkCount(ChunksNotOf(cs, docId), other) == ChunkCount(cs, other)
    decreases |cs|
  {
    if |cs| > 0 {
      CascadeCount(cs[1..], docId, other);
    }
  }

  lemma {:induction false} ChunksNotOfKeepsKeys(cs: seq<ChunkRow>, docId: string)
    requires UniqueChunkIds(cs)
    ensures UniqueChunkIds(ChunksNotOf(cs, docId))
    decreases |cs|
  {
    if |cs| > 0 {
      UniqueChunkTail(cs);
      ChunksNotOfKeepsKeys(cs[1..], docId);
      if cs[0].documentId != docId {
        UniqueChunkCons(cs[0], ChunksNotOf(cs[1..], docId));
      }
    }
  }

  lemma UniqueChunkTail(cs: seq<ChunkRow>)
    requires UniqueChunkIds(cs) && |cs| > 0
    ensures UniqueChunkIds(cs[1..])
    ensures forall x :: x in cs[1..] ==> x.id != cs[0].id
  {
    forall x | x in cs[1..] ensures x.id != cs[0].id {
      var k :| 0 <= k < |cs[1..]| && cs[1..][k] == x;
      assert cs[k + 1] == x;
    }
  }

  lemma UniqueChunkCons(x: ChunkRow, r: seq<ChunkRow>)
    requires UniqueChunkIds(r) && forall y :: y in r ==> y.id != x.id
    ensures UniqueChunkIds([x] + r)
  {
    var out := [x] + r;
    forall i, j | 0 <= i < j < |out| ensures out[i].id != out[j].id {
      if i == 0 {
        assert out[j] == r[j - 1] && out[j] in r;
      } else {
        assert out[i] == r[i - 1] && out[j] == r[j - 1];
      }
    }
  }

  lemma {:induction false} DocumentsWithoutKeepsKeys(ds: seq<DocumentRow>, id: string)
    requires UniqueDocumentIds(ds)
    ensures UniqueDocumentIds(DocumentsWithout(ds, id))
    decreases |ds|
  {
    if |ds| > 0 {
      UniqueDocumentTail(ds);
      DocumentsWithoutKeepsKeys(ds[1..], id);
      if ds[0].id != id {
        UniqueDocumentCons(ds[0], DocumentsWithout(ds[1..], id));
      }
    }
  }

  lemma UniqueDocumentTail(ds: seq<DocumentRow>)
    requires UniqueDocumentIds(ds) && |ds| > 0
    ensures UniqueDocumentIds(ds[1..])
    ensures forall x :: x in ds[1..] ==> x.id != ds[0].id
  {
    forall x | x in ds[1..] ensures x.id != ds[0].id {
      var k :| 0 <= k < |ds[1..]| && ds[1..][k] == x;
      assert ds[k + 1] == x;
    }
  }

  lemma UniqueDocumentCons(x: DocumentRow, r: seq<DocumentRow>)
    requires UniqueDocumentIds(r) && forall y :: y in r ==> y.id != x.id
    ensures UniqueDocumentIds([x] + r)
  {
    var out := [x] + r;
    forall i, j | 0 <= i < j < |out| ensures out[i].id != out[j].id {
      if i == 0 {
        assert out[j] == r[j - 1] && out[j] in r;
      } else {
        assert out[i] == r[i - 1] && out[j] == r[j - 1];
      }
    }
  }

  lemma {:induction false} SessionsWithoutKeepsKeys(ss: seq<SessionRow>, sid: string)
    requires UniqueSessionIds(ss)
    ensures UniqueSessionIds(SessionsWithout(ss, sid))
    decreases |ss|
  {
    if |ss| > 0 {
      UniqueSessionTail(ss);
      SessionsWithoutKeepsKeys(ss[1..], sid);
      if ss[0].id != sid {
        UniqueSessionCons(ss[0], SessionsWithout(ss[1..], sid));
      }
    }
  }

  lemma UniqueSessionTail(ss: seq<SessionRow>)
    requires UniqueSessionIds(ss) && |ss| > 0
    ensures UniqueSessionIds(ss[1..])
    ensures forall x :: x in ss[1..] ==> x.id != ss[0].id
  {
    forall x | x in ss[1..] ensures x.id != ss[0].id {
      var k :| 0 <= k < |ss[1..]| && ss[1..][k] == x;
      assert ss[k + 1] == x;
    }
  }

  lemma UniqueSessionCons(x: SessionRow, r: seq<SessionRow>)
    requires UniqueSessionIds(r) && forall y :: y in r ==> y.id != x.id
    ensures UniqueSessionIds([x] + r)
  {
    var out := [x] + r;
    forall i, j | 0 <= i < j < |out| ensures out[i].id != out[j].id {
      if i == 0 {
        assert out[j] == r[j - 1] && out[j] in r;
      } else {
        assert out[i] == r[i - 1] && out[j] == r[j - 1];
      }
    }
  }

  lemma AppendSessionConsistent(t: Tables, row: SessionRow)
    requires Consistent(t) && row.id !in SessionIds(t.sessions)
    ensures Consistent(t.(sessions := t.sessions + [row]))
  {
    var ss := t.sessions + [row];
    forall i, j | 0 <= i < j < |ss| ensures ss[i].id != ss[j].id {
      if j == |ss| - 1 {
        assert ss[i] in t.sessions;
      }
    }
    assert SessionIds(ss) == SessionIds(t.sessions) + {row.id};
  }

  lemma TouchConsistent(t: Tables, sid: string, now: int)
    requires Consistent(t)
    ensures Consistent(t.(sessions := TouchActivity(t.sessions, sid, now)))
  {
    TouchKeepsIds(t.sessions, sid, now);
  }

  lemma AppendMessageConsistent(t: Tables, row: MessageRow)
    requires Consistent(t) && MessageInsertable(t, row)
    ensures Consistent(t.(messages := t.messages + [row]))
  {
    var ms := t.messages + [row];
    forall i, j | 0 <= i < j < |ms| ensures ms[i].id != ms[j].id {
      if j == |ms| - 1 {
        assert ms[i] in t.messages;
      }
    }
  }

  lemma AppendDocumentConsistent(t: Tables, row: DocumentRow)
    requires Consistent(t) && DocumentInsertable(t, row)
    ensures Consistent(t.(documents := t.documents + [row]))
  {
    var ds := t.documents + [row];
    forall i, j | 0 <= i < j < |ds| ensures ds[i].id != ds[j].id {
      if j == |ds| - 1 {
        assert ds[i] in t.documents;
      }
    }
    assert DocumentIds(ds) == DocumentIds(t.documents) + {row.id};
  }

  lemma AppendChunkConsistent(t: Tables, row: ChunkRow)
    requires Consistent(t) && ChunkInsertable(t, row)
    ensures Consistent(t.(chunks := t.chunks + [row]))
  {
    var cs := t.chunks + [row];
    forall i, j | 0 <= i < j < |cs| ensures cs[i].id != cs[j].id {
      if j == |cs| - 1 {
        assert cs[i] in t.chunks;
      }
    }
  }

  lemma ClearMessagesConsistent(t: Tables, sid: string)
    requires Consistent(t)
    ensures Consistent(t.(messages := MessagesNotOf(t.messages, sid)))
  {
    MessagesNotOfKeepsKeys(t.messages, sid);
  }

  /** Deleting a session together with its messages keeps every foreign
      key satisfied. */
  lemma DeleteSessionConsistent(t: Tables, sid: string)
    requires Consistent(t)
    ensures Consistent(t.(sessions := SessionsWithout(t.sessions, sid),
                          messages := MessagesNotOf(t.messages, sid)))
  {
    SessionsWithoutKeepsKeys(t.sessions, sid);
    MessagesNotOfKeepsKeys(t.messages, sid);
  }

  /** Deleting a document together with its chunks keeps every foreign
      key satisfied. */
  lemma DeleteDocumentConsistent(t: Tables, id: string)
    requires Consistent(t)
    ensures Consistent(t.(documents := DocumentsWithout(t.documents, id),
                          chunks := ChunksNotOf(t.chunks, id)))
  {
    DocumentsWithoutKeepsKeys(t.documents, id);
    ChunksNotOfKeepsKeys(t.chunks, id);
  }

  /** The database file: four tables that the routes update in place. */
  class Store {
    var sessions: seq<SessionRow>
    var messages: seq<MessageRow>
    var documents: seq<DocumentRow>
    var chunks: seq<ChunkRow>

    function Rows(): Tables
      reads this
    {
      Tables(sessions, messages, documents, chunks)
    }

    predicate Valid()
      reads this
    {
      Consistent(Rows())
    }

    /** A database created by `CREATE TABLE IF NOT EXISTS` on an empty file. */
    constructor ()
      ensures Valid() && Rows() == Tables([], [], [], [])
    {
      sessions, messages, documents, chunks := [], [], [], [];
    }

    /** `INSERT OR IGNORE INTO sessions`: an existing id is left as it is. */
    method InsertOrIgnoreSession(row: SessionRow)
      requires Valid()
      modifies this
      ensures Valid()
      ensures Rows() == if row.id in SessionIds(old(sessions)) then old(Rows())
                          else old(Rows()).(sessions := old(sessions) + [row])
    {
      if row.id !in SessionIds(sessions) {
        AppendSessionConsistent(Rows(), row);
        sessions := sessions + [row];
      }
    }

    /** `UPDATE sessions SET last_activity = ? WHERE id = ?`. */
    method UpdateLastActivity(sid: string, now: int)
      requires Valid()
      modifies this
      ensures Valid()
      ensures Rows() == old(Rows()).(sessions := TouchActivity(old(sessions), sid, now))
    {
      TouchConsistent(Rows(), sid, now);
      sessions := TouchActivity(sessions, sid, now);
    }

    /** `INSERT INTO messages`; rejected when it breaks a constraint. */
    method InsertMessage(row: MessageRow) returns (ok: bool)
      requires Valid()
      modifies this
      ensures Valid()
      ensures ok == MessageInsertable(old(Rows()), row)
      ensures Rows() == if ok then old(Rows()).(messages := old(messages) + [row]) else old(Rows())
    {
      ok := MessageInsertable(Rows(), row);
      if ok {
        AppendMessageConsistent(Rows(), row);
        messages := messages + [row];
      }
    }

    /** `DELETE FROM messages WHERE session_id = ?`. */
    method DeleteMessagesOf(sid: string)
      requires Valid()
      modifies this
      ensures Valid()
      ensures Rows() == old(Rows()).(messages := MessagesNotOf(old(messages), sid))
    {
      ClearMessagesConsistent(Rows(), sid);
      messages := MessagesNotOf(messages, sid);
    }

    /** `DELETE FROM sessions WHERE id = ?`, cascading to the session's
        messages. No route of the core issues it; it states the schema's
        `ON DELETE CASCADE`. */
    method DeleteSession(sid: string)
      requires Valid()
      modifies this
      ensures Valid()
      ensures Rows() == old(Rows()).(sessions := SessionsWithout(old(sessions), sid),
                                        messages := MessagesNotOf(old(messages), sid))
    {
      DeleteSessionConsistent(Rows(), sid);
      sessions := SessionsWithout(sessions, sid);
      messages := MessagesNotOf(messages, sid);
    }

    method InsertDocument(row: DocumentRow) returns (ok: bool)
      requires Valid()
      modifies this
      ensures Valid()
      ensures ok == DocumentInsertable(old(Rows()), row)
      ensures Rows() == if ok then old(Rows()).(documents := old(documents) + [row]) else old(Rows())
    {
      ok := DocumentInsertable(Rows(), row);
      if ok {
        AppendDocumentConsistent(Rows(), row);
        documents := documents + [row];
      }
    }

    method InsertChunk(row: ChunkRow) returns (ok: bool)
      requires Valid()
      modifies this
      ensures Valid()
      ensures ok == ChunkInsertable(old(Rows()), row)
      ensures Rows() == if ok then old(Rows()).(chunks := old(chunks) + [row]) else old(Rows())
    {
      ok := ChunkInsertable(Rows(), row);
      if ok {
        AppendChunkConsistent(Rows(), row);
        chunks := chunks + [row];
      }
    }

    /** `DELETE FROM documents WHERE id = ?`; the foreign key's
        `ON DELETE CASCADE` removes the document's chunks with it. */
    method DeleteDocument(id: string)
      requires Valid()
      modifies this
      ensures Valid()
      ensures Rows() == old(Rows()).(documents := DocumentsWithout(old(documents), id),
                                        chunks := ChunksNotOf(old(chunks), id))
    {
      DeleteDocumentConsistent(Rows(), id);
      documents := DocumentsWithout(documents, id);
      chunks := ChunksNotOf(chunks, id);
    }
  }

  /** An open `sqlite3.Database` object on the database file. */
  class Handle {
    const store: Store

    constructor (store: Store)
      ensures this.store == store
    {
      this.store := store;
    }
  }

  /** The module-level `let db` of src/db.js, over the one database file. */
  class Connection {
    const file: Store
    var db: Handle?

    predicate Valid()
      reads this, file
    {
      (db != null ==> db.store == file) && file.Valid()
    }

    /** Process start: the module is loaded with `db = null`. */
    constructor (file: Store)
      requires file.Valid()
      ensures Valid() && this.file == file && db == null
    {
      this.file := file;
      db := null;
    }

    /** `getDb()`: the open handle, or `None` where the source throws
        'Database not initialized'. */
    method GetDb() returns (r: Option<Handle>)
      requires Valid()
      ensures r.None? <==> db == null
      ensures r.Some? ==> r.value == db && r.value.store == file
    {
      if db == null { r := None; } else { r := Some(db); }
    }

    /** `ensureDatabase()`: opens the file the first time, and afterwards
        returns the same handle. `CREATE TABLE IF NOT EXISTS` leaves the
        file's rows as they are. */
    method EnsureDatabase() returns (h: Handle)
      requires Valid()
      modifies this
      ensures Valid() && db == h && h.store == file
      ensures old(db) != null ==> h == old(db)
      ensures old(db) == null ==> fresh(h)
      ensures file.Rows() == old(file.Rows())
    {
      if db != null {
        return db;
      }
      h := new Handle(file);
      db := h;
    }

    /** `closeDatabase()`: drops the handle; a no-op when none is open. */
    method CloseDatabase()
      requires Valid()
      modifies this
      ensures Valid() && db == null
      ensures file.Rows() == old(file.Rows())
    {
      db := null;
    }
  }
}
