/** The document routes of src/routes/upload.js: the upload filter, the
    choice of text extractor, ingestion of a staged file into the
    documents and document_chunks tables, and the list, get and delete
    routes. Parsing, hashing, identifiers and the clock are inputs. */
module Upload {
  import opened Common
  import opened Sorting
  import opened Db
  import opened TextUtil

  // ---------------------------------------------------------------------
  // The upload filter and the extractor (src/routes/upload.js:39-94)
  // ---------------------------------------------------------------------

  /** The MIME types multer's `fileFilter` lets through. */
  const AllowedMimes := [PdfType, DocxType, TextType, DocType]

  predicate AcceptsFile(mimeType: string) {
    mimeType in AllowedMimes
  }

  /** The upload filter and `isValidFileType` agree, and both accept
      exactly the types `getFileExtension` knows. */
  lemma FilterAgreesWithTable(mimeType: string)
    ensures AcceptsFile(mimeType) <==> IsValidFileType(mimeType)
    ensures AcceptsFile(mimeType) <==> GetFileExtension(mimeType) != ""
    ensures AcceptsFile(mimeType) <==>
      mimeType == PdfType || mimeType == DocxType || mimeType == TextType || mimeType == DocType
  {
  }

  datatype Extractor = PdfParser | WordExtractor | PlainText

  /** The branch `extractText` takes: a type mentioning `pdf` goes to the
      PDF parser; otherwise one mentioning `word` or `document`, or a path
      ending in `.docx`, goes to the Word extractor; the rest is read as
      UTF-8 text. */
  function ExtractorFor(filePath: string, mimeType: string): Extractor {
    if Contains(mimeType, "pdf") then PdfParser
    else if Contains(mimeType, "word") || Contains(mimeType, "document") || EndsWith(filePath, ".docx") then WordExtractor
    else PlainText
  }

  /** Every character of `t` occurs in a string that contains `t`; so a
      string lacking one of them cannot contain it. */
  lemma CharOfContained(s: string, t: string, c: char)
    requires c in t
    ensures Contains(s, t) ==> c in s
  {
    if Contains(s, t) {
      var i :| 0 <= i <= |s| - |t| && StartsWith(s[i..], t);
      var j :| 0 <= j < |t| && t[j] == c;
      assert s[i..][..|t|][j] == c;
      assert s[i + j] == c;
    }
  }

  lemma Occurs(s: string, t: string, i: nat)
    requires i + |t| <= |s| && s[i..i + |t|] == t
    ensures Contains(s, t)
  {
    assert s[i..][..|t|] == s[i..i + |t|];
  }

  /** Where each accepted type is sent: PDF to the PDF parser, both Word
      types (the legacy `application/msword` included) to the Word
      extractor, and plain text to the text reader unless its path ends
      in `.docx`. */
  lemma ExtractorOfPdf(filePath: string)
    ensures ExtractorFor(filePath, PdfType) == PdfParser
  {
    Occurs(PdfType, "pdf", 12);
  }

  /** The DOCX type mentions `document`, so it never reaches the
      plain-text reader. */
  lemma ExtractorOfDocx(filePath: string)
    ensures ExtractorFor(filePath, DocxType) != PlainText
  {
    DocxMentionsDocument();
    Occurs(DocxType, "document", 63);
  }

  lemma DocxMentionsDocument()
    ensures DocxType[63..71] == "document"
  {
  }

  lemma ExtractorOfMsword(filePath: string)
    ensures ExtractorFor(filePath, DocType) == WordExtractor
  {
    MswordMentionsWord();
    WordTypeExtractor(filePath, DocType, 14);
  }

  lemma MswordMentionsWord()
    ensures 'f' !in DocType && DocType[14..18] == "word"
  {
  }

  /** A type without an `f` that mentions `word` goes to the Word extractor. */
  lemma WordTypeExtractor(filePath: string, m: string, i: nat)
    requires 'f' !in m && i + 4 <= |m| && m[i..i + 4] == "word"
    ensures ExtractorFor(filePath, m) == WordExtractor
  {
    CharOfContained(m, "pdf", 'f');
    Occurs(m, "word", i);
  }

  lemma ExtractorOfText(filePath: string)
    ensures ExtractorFor(filePath, TextType) == if EndsWith(filePath, ".docx") then WordExtractor else PlainText
  {
    TextLacksLetters();
    OtherTypeExtractor(filePath, TextType);
  }

  lemma TextLacksLetters()
    ensures 'f' !in TextType && 'w' !in TextType && 'd' !in TextType
  {
  }

  /** A type with none of `f`, `w` and `d` is read as text unless the path
      ends in `.docx`. */
  lemma OtherTypeExtractor(filePath: string, m: string)
    requires 'f' !in m && 'w' !in m && 'd' !in m
    ensures ExtractorFor(filePath, m) == if EndsWith(filePath, ".docx") then WordExtractor else PlainText
  {
    CharOfContained(m, "pdf", 'f');
    CharOfContained(m, "word", 'w');
    CharOfContained(m, "document", 'd');
  }

  // ---------------------------------------------------------------------
  // The staged files
  // ---------------------------------------------------------------------

  /** The upload directory, as the set of paths that exist. */
  class FileSystem {
    var files: set<string>

    constructor (files: set<string>)
      ensures this.files == files
    {
      this.files := files;
    }

    /** `fs.unlinkSync(path)`: removes the file; `ok` is false where it
        throws because there is no such file. */
    method Unlink(path: string) returns (ok: bool)
      modifies this
      ensures ok == (path in old(files)) && files == old(files) - {path}
    {
      ok := path in files;
      files := files - {path};
    }
  }

  // ---------------------------------------------------------------------
  // POST / (src/routes/upload.js:102-201)
  // ---------------------------------------------------------------------

  /** The file multer stored: its generated name, the client's name, the
      declared type, its path in the upload directory and its size. */
  datatype StagedFile = StagedFile(filename: string, originalName: string, mimeType: string, path: string, size: int)

  /** Everything an upload depends on besides the database and the file
      system: the staged file (`None` when the form had none), the text
      the extractor returned (`None` when it threw), the digest function,
      the identifiers drawn for the document and for chunk `i`, the clock,
      and where the database fails (a failed lookup, a failed document
      write, or the write of chunk `i`). */
  datatype UploadRequest = UploadRequest(
    file: Option<StagedFile>, extracted: Option<string>, hash: string -> string,
    docId: string, chunkId: nat -> string, now: int,
    lookupFails: bool, documentWriteFails: bool, chunkWriteFailsAt: Option<nat>)

  datatype UploadResponse =
    | Uploaded(documentId: string, filename: string, chunks: nat)
    | UploadFailed(status: nat, error: string)

  datatype UploadOutcome = UploadOutcome(tables: Tables, files: set<string>, response: UploadResponse)

  const NoFile := "No file uploaded"
  const EmptyContent := "Empty content"
  const DuplicateContent := "Duplicate content"
  const UploadError := "Upload failed"

  /** `chunkText(textContent, { maxTokens: 500, overlap: 50 })`. */
  const IngestOptions := ChunkOptions(Some(500), Some(50))

  function Pieces(text: string): seq<string> {
    Chunks(Words(text), 500, 450)
  }

  /** `SELECT id FROM documents WHERE content_hash = ?` finds a row. */
  predicate HashTaken(ds: seq<DocumentRow>, h: string) {
    exists d :: d in ds && d.contentHash == h
  }

  function DocumentOf(q: UploadRequest, f: StagedFile, h: string): DocumentRow {
    DocumentRow(q.docId, f.filename, f.originalName, f.mimeType, f.path, f.size, h, q.now, q.now)
  }

  /** The chunk rows the loop inserts, row `i` for piece `i`. */
  function ChunkRowsOf(q: UploadRequest, pieces: seq<string>): (rows: seq<ChunkRow>)
    ensures |rows| == |pieces|
    ensures forall i :: 0 <= i < |pieces| ==>
      rows[i] == ChunkRow(q.chunkId(i), q.docId, i, pieces[i], q.hash(pieces[i]), q.now)
  {
    seq(|pieces|, i requires 0 <= i < |pieces| => ChunkRow(q.chunkId(i), q.docId, i, pieces[i], q.hash(pieces[i]), q.now))
  }

  /** The tables once the first `k` rows are in. */
  function WithChunks(t: Tables, rows: seq<ChunkRow>, k: nat): Tables
    requires k <= |rows|
  {
    t.(chunks := t.chunks + rows[..k])
  }

  /** The first row from `k` on whose insert is rejected (its write
      fails, or it breaks a constraint), or `|rows|` when all go in. */
  function FirstFailure(t: Tables, rows: seq<ChunkRow>, failAt: Option<nat>, k: nat): (r: nat)
    requires k <= |rows|
    ensures k <= r <= |rows|
    decreases |rows| - k
  {
    if k == |rows| then k
    else if failAt == Some(k) || !ChunkInsertable(WithChunks(t, rows, k), rows[k]) then k
    else FirstFailure(t, rows, failAt, k + 1)
  }

  /** The upload route, on the tables and the files before it; `open` says
      whether `getDb()` has a handle. Every exception ends in the `catch`,
      which unlinks the staged file (ignoring a failure) and answers 500. */
  function Upload(t: Tables, files: set<string>, open: bool, q: UploadRequest): UploadOutcome {
    if q.file.None? then UploadOutcome(t, files, UploadFailed(400, NoFile))
    else if q.extracted.None? then Failed(t, files, q.file.value)
    else Ingest(t, files, open, q, q.file.value, q.extracted.value)
  }

  /** The `catch`: the tables as they are, the staged file gone, 500. */
  function Failed(t: Tables, files: set<string>, f: StagedFile): UploadOutcome {
    UploadOutcome(t, files - {f.path}, UploadFailed(500, UploadError))
  }

  /** A refusal that first unlinks the staged file; when that unlink
      throws, the `catch` answers instead. */
  function Refuse(t: Tables, files: set<string>, f: StagedFile, status: nat, error: string): UploadOutcome {
    if f.path in files then UploadOutcome(t, files - {f.path}, UploadFailed(status, error)) else Failed(t, files, f)
  }

  /** The route once the text is extracted. */
  function Ingest(t: Tables, files: set<string>, open: bool, q: UploadRequest, f: StagedFile, text: string): UploadOutcome {
    if Trim(text) == "" then Refuse(t, files, f, 400, EmptyContent)
    else if !open || q.lookupFails then Failed(t, files, f)
    else if HashTaken(t.documents, q.hash(text)) then Refuse(t, files, f, 409, DuplicateContent)
    else StoreDocument(t, files, q, f, DocumentOf(q, f, q.hash(text)), Pieces(text))
  }

  /** The document insert, then the chunk inserts. */
  function StoreDocument(t: Tables, files: set<string>, q: UploadRequest, f: StagedFile, doc: DocumentRow, pieces: seq<string>): UploadOutcome {
    if q.documentWriteFails || !DocumentInsertable(t, doc) then Failed(t, files, f)
    else StoreChunks(t.(documents := t.documents + [doc]), files, q, f, pieces)
  }

  /** The chunk inserts up to the first that fails; no earlier write is
      undone. */
  function StoreChunks(t: Tables, files: set<string>, q: UploadRequest, f: StagedFile, pieces: seq<string>): UploadOutcome {
    var rows := ChunkRowsOf(q, pieces);
    var k := FirstFailure(t, rows, q.chunkWriteFailsAt, 0);
    if k < |rows| then Failed(WithChunks(t, rows, k), files, f)
    else UploadOutcome(WithChunks(t, rows, k), files, Uploaded(q.docId, f.originalName, |rows|))
  }

  /** The catch's clean-up: `unlinkSync` inside its own `try`. */
  method CleanUp(fs: FileSystem, path: string)
    modifies fs
    ensures fs.files == old(fs.files) - {path}
  {
    var _ := fs.Unlink(path);
  }

  method HandleUpload(conn: Connection, fs: FileSystem, q: UploadRequest) returns (r: UploadResponse)
    requires conn.Valid()
    modifies conn.file, fs
    ensures conn.Valid()
    ensures UploadOutcome(conn.file.Rows(), fs.files, r) == Upload(old(conn.file.Rows()), old(fs.files), conn.db != null, q)
  {
    if q.file.None? {
      return UploadFailed(400, NoFile);
    }
    var f := q.file.value;
    if q.extracted.None? {
      CleanUp(fs, f.path);
      return UploadFailed(500, UploadError);
    }
    r := IngestText(conn, fs, q, f, q.extracted.value);
  }

  /** The route once the text is extracted: the blank check, the duplicate
      check, then the inserts. */
  method IngestText(conn: Connection, fs: FileSystem, q: UploadRequest, f: StagedFile, text: string)
    returns (r: UploadResponse)
    requires conn.Valid()
    modifies conn.file, fs
    ensures conn.Valid()
    ensures UploadOutcome(conn.file.Rows(), fs.files, r) == Ingest(old(conn.file.Rows()), old(fs.files), conn.db != null, q, f, text)
  {
    ghost var t := conn.file.Rows();
    if Trim(text) == "" {
      r := RefuseUpload(fs, t, f, 400, EmptyContent);
      return;
    }
    var h := q.hash(text);
    var db := conn.GetDb();
    if db.None? || q.lookupFails {
      CleanUp(fs, f.path);
      return UploadFailed(500, UploadError);
    }
    if HashTaken(conn.file.documents, h) {
      r := RefuseUpload(fs, t, f, 409, DuplicateContent);
      return;
    }
    r := StoreText(conn, fs, q, f, DocumentOf(q, f, h), text);
  }

  /** Unlink the staged file and answer `status`; a failing unlink ends in
      the `catch`. */
  method RefuseUpload(fs: FileSystem, ghost t: Tables, f: StagedFile, status: nat, error: string)
    returns (r: UploadResponse)
    modifies fs
    ensures UploadOutcome(t, fs.files, r) == Refuse(t, old(fs.files), f, status, error)
  {
    var ok := fs.Unlink(f.path);
    if !ok {
      CleanUp(fs, f.path);
      return UploadFailed(500, UploadError);
    }
    return UploadFailed(status, error);
  }

  /** The document insert, the chunking, then the chunk inserts. */
  method StoreText(conn: Connection, fs: FileSystem, q: UploadRequest, f: StagedFile, doc: DocumentRow, text: string)
    returns (r: UploadResponse)
    requires conn.Valid() && conn.db != null
    modifies conn.file, fs
    ensures conn.Valid()
    ensures UploadOutcome(conn.file.Rows(), fs.files, r) == StoreDocument(old(conn.file.Rows()), old(fs.files), q, f, doc, Pieces(text))
  {
    if q.documentWriteFails {
      CleanUp(fs, f.path);
      return UploadFailed(500, UploadError);
    }
    var inserted := conn.file.InsertDocument(doc);
    if !inserted {
      CleanUp(fs, f.path);
      return UploadFailed(500, UploadError);
    }
    var pieces := ChunkText(text, IngestOptions);
    r := InsertChunks(conn, fs, q, f, pieces);
  }

  /** The `for` loop inserting the chunk rows, and the response. */
  method InsertChunks(conn: Connection, fs: FileSystem, q: UploadRequest, f: StagedFile, pieces: seq<string>)
    returns (r: UploadResponse)
    requires conn.Valid() && conn.db != null
    modifies conn.file, fs
    ensures conn.Valid()
    ensures UploadOutcome(conn.file.Rows(), fs.files, r) == StoreChunks(old(conn.file.Rows()), old(fs.files), q, f, pieces)
  {
    ghost var t1 := conn.file.Rows();
    ghost var rows := ChunkRowsOf(q, pieces);
    ghost var k := FirstFailure(t1, rows, q.chunkWriteFailsAt, 0);
    var i := 0;
    while i < |pieces|
      invariant 0 <= i <= |pieces| && conn.Valid()
      invariant conn.file.Rows() == WithChunks(t1, rows, i)
      invariant FirstFailure(t1, rows, q.chunkWriteFailsAt, i) == k
      invariant fs.files == old(fs.files)
    {
      var row := ChunkRow(q.chunkId(i), q.docId, i, pieces[i], q.hash(pieces[i]), q.now);
      assert row == rows[i];
      FirstFailureStep(t1, rows, q.chunkWriteFailsAt, i);
      if q.chunkWriteFailsAt == Some(i) {
        CleanUp(fs, f.path);
        return UploadFailed(500, UploadError);
      }
      var ok := conn.file.InsertChunk(row);
      if !ok {
        CleanUp(fs, f.path);
        return UploadFailed(500, UploadError);
      }
      WithChunksStep(t1, rows, i);
      i := i + 1;
    }
    r := Uploaded(q.docId, f.originalName, |pieces|);
  }

  lemma FirstFailureStep(t: Tables, rows: seq<ChunkRow>, failAt: Option<nat>, i: nat)
    requires i < |rows|
    ensures failAt == Some(i) || !ChunkInsertable(WithChunks(t, rows, i), rows[i]) ==> FirstFailure(t, rows, failAt, i) == i
    ensures failAt != Some(i) && ChunkInsertable(WithChunks(t, rows, i), rows[i]) ==>
      FirstFailure(t, rows, failAt, i) == FirstFailure(t, rows, failAt, i + 1)
  {
  }

  lemma WithChunksStep(t: Tables, rows: seq<ChunkRow>, i: nat)
    requires i < |rows|
    ensures WithChunks(t, rows, i + 1) == WithChunks(t, rows, i).(chunks := WithChunks(t, rows, i).chunks + [rows[i]])
  {
    assert rows[..i + 1] == rows[..i] + [rows[i]];
  }

  /** Blank text is refused with 400 and its staged file removed; nothing
      is written. */
  lemma UploadRejectsBlank(t: Tables, files: set<string>, open: bool, q: UploadRequest)
    requires q.file.Some? && q.extracted.Some? && IsBlank(q.extracted.value) && q.file.value.path in files
    ensures Upload(t, files, open, q) == UploadOutcome(t, files - {q.file.value.path}, UploadFailed(400, EmptyContent))
  {
    TrimEmptyIffBlank(q.extracted.value);
  }

  /** Text whose digest a stored document already has is refused with 409
      and its staged file removed; nothing is written. */
  lemma UploadRejectsDuplicate(t: Tables, files: set<string>, q: UploadRequest, d: DocumentRow)
    requires q.file.Some? && q.extracted.Some? && !IsBlank(q.extracted.value) && q.file.value.path in files
    requires !q.lookupFails && d in t.documents && d.contentHash == q.hash(q.extracted.value)
    ensures Upload(t, files, true, q) == UploadOutcome(t, files - {q.file.value.path}, UploadFailed(409, DuplicateContent))
  {
    TrimEmptyIffBlank(q.extracted.value);
  }

  /** Fresh identifiers for the document and for every chunk row. */
  predicate FreshIds(t: Tables, q: UploadRequest, n: nat) {
    && q.docId !in DocumentIds(t.documents)
    && (forall i :: 0 <= i < n ==> q.chunkId(i) !in ChunkIds(t.chunks))
    && (forall i, j :: 0 <= i < j < n ==> q.chunkId(i) != q.chunkId(j))
  }

  /** With fresh identifiers and a document row in place, only an injected
      write failure stops the loop. */
  lemma {:induction false} FirstFailureFresh(t: Tables, q: UploadRequest, pieces: seq<string>, k: nat)
    requires q.docId in DocumentIds(t.documents) && k <= |pieces|
    requires forall i :: 0 <= i < |pieces| ==> q.chunkId(i) !in ChunkIds(t.chunks)
    requires forall i, j :: 0 <= i < j < |pieces| ==> q.chunkId(i) != q.chunkId(j)
    ensures var f := FirstFailure(t, ChunkRowsOf(q, pieces), q.chunkWriteFailsAt, k);
      if q.chunkWriteFailsAt.Some? && k <= q.chunkWriteFailsAt.value < |pieces|
      then f == q.chunkWriteFailsAt.value else f == |pieces|
    decreases |pieces| - k
  {
    var rows := ChunkRowsOf(q, pieces);
    if k < |pieces| && q.chunkWriteFailsAt != Some(k) {
      var t' := WithChunks(t, rows, k);
      assert ChunkInsertable(t', rows[k]) by {
        forall c | c in t'.chunks ensures c.id != rows[k].id {
          if c !in t.chunks {
            var j :| 0 <= j < k && rows[..k][j] == c;
            assert c == rows[j];
          }
        }
        assert q.docId in DocumentIds(t'.documents);
      }
      FirstFailureFresh(t, q, pieces, k + 1);
    }
  }

  /** The conditions under which an upload reaches the chunk loop. */
  predicate ReachesChunks(t: Tables, q: UploadRequest) {
    && q.file.Some? && q.extracted.Some? && !IsBlank(q.extracted.value)
    && !q.lookupFails && !q.documentWriteFails
    && !HashTaken(t.documents, q.hash(q.extracted.value))
    && FreshIds(t, q, |Pieces(q.extracted.value)|)
  }

  /** The document row of such an upload, and the tables once it is in. */
  function NewDocument(q: UploadRequest): DocumentRow
    requires q.file.Some? && q.extracted.Some?
  {
    DocumentOf(q, q.file.value, q.hash(q.extracted.value))
  }

  lemma ReachesStoreChunks(t: Tables, files: set<string>, q: UploadRequest)
    requires ReachesChunks(t, q)
    ensures Upload(t, files, true, q)
      == StoreChunks(t.(documents := t.documents + [NewDocument(q)]), files, q, q.file.value, Pieces(q.extracted.value))
  {
    TrimEmptyIffBlank(q.extracted.value);
  }

  /** The loop's outcome when only the injected failure can stop it. */
  lemma StoreChunksFresh(t: Tables, files: set<string>, q: UploadRequest)
    requires ReachesChunks(t, q)
    ensures var t1, rows := t.(documents := t.documents + [NewDocument(q)]), ChunkRowsOf(q, Pieces(q.extracted.value));
      FirstFailure(t1, rows, q.chunkWriteFailsAt, 0) ==
        if q.chunkWriteFailsAt.Some? && q.chunkWriteFailsAt.value < |rows| then q.chunkWriteFailsAt.value else |rows|
  {
    var doc := NewDocument(q);
    var t1 := t.(documents := t.documents + [doc]);
    assert q.docId in DocumentIds(t1.documents) by {
      assert doc in t1.documents;
    }
    FirstFailureFresh(t1, q, Pieces(q.extracted.value), 0);
  }

  /** A stored upload: the new document and one row per chunk of
      `chunkText(text, {500, 50})` (row i has index i, the chunk's text and
      its digest, as `ChunkRowsOf` states); the response reports their
      number, which is at least 1, and the staged file stays. */
  lemma UploadStores(t: Tables, files: set<string>, q: UploadRequest)
    requires ReachesChunks(t, q) && q.chunkWriteFailsAt.None?
    ensures var o := Upload(t, files, true, q);
      && o.response == Uploaded(q.docId, q.file.value.originalName, |Pieces(q.extracted.value)|)
      && |Pieces(q.extracted.value)| >= 1
      && o.files == files
      && o.tables == t.(documents := t.documents + [NewDocument(q)],
                        chunks := t.chunks + ChunkRowsOf(q, Pieces(q.extracted.value)))
  {
    var text := q.extracted.value;
    var t1 := t.(documents := t.documents + [NewDocument(q)]);
    assert Upload(t, files, true, q) == StoreChunks(t1, files, q, q.file.value, Pieces(text)) by {
      ReachesStoreChunks(t, files, q);
    }
    assert FirstFailure(t1, ChunkRowsOf(q, Pieces(text)), q.chunkWriteFailsAt, 0) == |Pieces(text)| by {
      StoreChunksFresh(t, files, q);
    }
    StoreChunksAll(t1, files, q, q.file.value, Pieces(text));
    assert |Pieces(text)| >= 1 by {
      ChunkTextBlank(text, 500, 450);
    }
  }

  /** Uploading the same text twice: the first upload stores its document
      and the second, whose text hashes the same, is refused with 409 and
      leaves the tables as the first left them. */
  lemma UploadTwiceConflicts(t: Tables, files: set<string>, q1: UploadRequest, q2: UploadRequest)
    requires ReachesChunks(t, q1) && q1.chunkWriteFailsAt.None?
    requires q2.file.Some? && q2.extracted == q1.extracted && q2.hash == q1.hash && !q2.lookupFails
    requires q2.file.value.path in files
    ensures var o1 := Upload(t, files, true, q1);
      && o1.response.Uploaded?
      && Upload(o1.tables, o1.files, true, q2)
         == UploadOutcome(o1.tables, files - {q2.file.value.path}, UploadFailed(409, DuplicateContent))
  {
    UploadStores(t, files, q1);
    var o1 := Upload(t, files, true, q1);
    assert NewDocument(q1) in o1.tables.documents;
    UploadRejectsDuplicate(o1.tables, o1.files, q2, NewDocument(q1));
  }

  /** When every chunk insert succeeds, all rows are added and the route
      answers with the number of chunks. */
  lemma StoreChunksAll(t: Tables, files: set<string>, q: UploadRequest, f: StagedFile, pieces: seq<string>)
    requires FirstFailure(t, ChunkRowsOf(q, pieces), q.chunkWriteFailsAt, 0) == |pieces|
    ensures StoreChunks(t, files, q, f, pieces)
      == UploadOutcome(t.(chunks := t.chunks + ChunkRowsOf(q, pieces)), files, Uploaded(q.docId, f.originalName, |pieces|))
  {
    var rows := ChunkRowsOf(q, pieces);
    assert rows[..|rows|] == rows;
  }

  /** A failed write of chunk k leaves the document row and chunks
      0..k-1 in place (there is no transaction), removes the staged file
      the row points to, and answers 500. */
  lemma UploadKeepsPartialRows(t: Tables, files: set<string>, q: UploadRequest, k: nat)
    requires ReachesChunks(t, q) && q.chunkWriteFailsAt == Some(k) && k < |Pieces(q.extracted.value)|
    ensures var o := Upload(t, files, true, q);
      && o.response == UploadFailed(500, UploadError)
      && o.files == files - {q.file.value.path}
      && o.tables == t.(documents := t.documents + [NewDocument(q)],
                        chunks := t.chunks + ChunkRowsOf(q, Pieces(q.extracted.value))[..k])
  {
    ReachesStoreChunks(t, files, q);
    StoreChunksFresh(t, files, q);
  }

  // ---------------------------------------------------------------------
  // GET /list, GET /:id, DELETE /:id (src/routes/upload.js:204-325)
  // ---------------------------------------------------------------------

  datatype DocumentSummary = DocumentSummary(
    id: string, filename: string, mimeType: string, size: int, chunkCount: nat, createdAt: int)

  function SummaryOf(cs: seq<ChunkRow>, d: DocumentRow): DocumentSummary {
    DocumentSummary(d.id, d.originalFilename, d.mimeType, d.fileSize, ChunkCount(cs, d.id), d.createdAt)
  }

  function NewestDocumentFirst(d: DocumentRow): int { -d.createdAt }

  /** `SELECT d.*, COUNT(dc.id) ... LEFT JOIN ... GROUP BY d.id ORDER BY
      d.created_at DESC`: one entry per document, newest first, each with
      the number of its chunks (0 for a document without any). */
  function ListDocuments(t: Tables): (r: seq<DocumentSummary>)
    ensures |r| == |t.documents|
    ensures forall i, j :: 0 <= i < j < |r| ==> r[i].createdAt >= r[j].createdAt
    ensures forall d :: d in t.documents ==> SummaryOf(t.chunks, d) in r
    ensures forall x :: x in r ==> exists d :: d in t.documents && x == SummaryOf(t.chunks, d)
  {
    var sorted := SortBy(t.documents, NewestDocumentFirst);
    SameElements(sorted, t.documents);
    SummariesNewestFirst(t.chunks, sorted);
    SummariesCoverDocuments(t.chunks, sorted, t.documents);
    Summaries(t.chunks, sorted)
  }

  /** One summary per document, in the documents' order. */
  function Summaries(cs: seq<ChunkRow>, ds: seq<DocumentRow>): (r: seq<DocumentSummary>)
    ensures |r| == |ds| && forall i :: 0 <= i < |ds| ==> r[i] == SummaryOf(cs, ds[i])
  {
    seq(|ds|, i requires 0 <= i < |ds| => SummaryOf(cs, ds[i]))
  }

  lemma SummariesNewestFirst(cs: seq<ChunkRow>, ds: seq<DocumentRow>)
    requires SortedBy(ds, NewestDocumentFirst)
    ensures var r := Summaries(cs, ds);
      forall i, j :: 0 <= i < j < |r| ==> r[i].createdAt >= r[j].createdAt
  {
    var r := Summaries(cs, ds);
    forall i, j | 0 <= i < j < |r| ensures r[i].createdAt >= r[j].createdAt {
      assert NewestDocumentFirst(ds[i]) <= NewestDocumentFirst(ds[j]);
    }
  }

  lemma SummariesCoverDocuments(cs: seq<ChunkRow>, ds: seq<DocumentRow>, all: seq<DocumentRow>)
    requires forall d :: d in ds <==> d in all
    ensures var r := Summaries(cs, ds);
      && (forall d :: d in all ==> SummaryOf(cs, d) in r)
      && (forall x :: x in r ==> exists d :: d in all && x == SummaryOf(cs, d))
  {
    var r := Summaries(cs, ds);
    forall d | d in all ensures SummaryOf(cs, d) in r {
      var i :| 0 <= i < |ds| && ds[i] == d;
      assert r[i] == SummaryOf(cs, d);
    }
    forall x | x in r ensures exists d :: d in all && x == SummaryOf(cs, d) {
      var i :| 0 <= i < |r| && r[i] == x;
      assert ds[i] in all;
    }
  }

  datatype ListResponse = DocumentList(documents: seq<DocumentSummary>) | ListFailed(error: string)

  const ListError := "Failed to get documents list"

  /** `GET /list`; `queryFails` is a failing query. */
  method HandleList(conn: Connection, queryFails: bool) returns (r: ListResponse)
    requires conn.Valid()
    ensures r.DocumentList? <==> conn.db != null && !queryFails
    ensures r.ListFailed? ==> r.error == ListError
    ensures r.DocumentList? ==> r.documents == ListDocuments(conn.file.Rows())
  {
    var db := conn.GetDb();
    if db.None? || queryFails {
      return ListFailed(ListError);
    }
    r := DocumentList(ListDocuments(conn.file.Rows()));
  }

  datatype DocumentDetails = DocumentDetails(
    id: string, filename: string, mimeType: string, size: int, chunkCount: nat, createdAt: int, updatedAt: int)

  function DetailsOf(cs: seq<ChunkRow>, d: DocumentRow): DocumentDetails {
    DocumentDetails(d.id, d.originalFilename, d.mimeType, d.fileSize, ChunkCount(cs, d.id), d.createdAt, d.updatedAt)
  }

  /** The row of `GET /:id`'s query: the document with that id and its
      chunk count, or nothing for an unknown id. */
  function GetDocument(t: Tables, id: string): (r: Option<DocumentDetails>)
    ensures r.None? <==> id !in DocumentIds(t.documents)
    ensures r.Some? ==> exists d :: d in t.documents && d.id == id && r.value == DetailsOf(t.chunks, d)
    ensures r.Some? ==> r.value.id == id && r.value.chunkCount == ChunkCount(t.chunks, id)
  {
    match FindDocument(t.documents, id)
    case None => None
    case Some(d) => Some(DetailsOf(t.chunks, d))
  }

  datatype GetResponse = Found(document: DocumentDetails) | NotFound | GetFailed(error: string)

  const GetError := "Failed to get document details"

  /** `GET /:id`: 404 for an unknown id. */
  method HandleGet(conn: Connection, id: string, queryFails: bool) returns (r: GetResponse)
    requires conn.Valid()
    ensures r.GetFailed? <==> conn.db == null || queryFails
    ensures r.GetFailed? ==> r.error == GetError
    ensures !r.GetFailed? ==> (r.NotFound? <==> id !in DocumentIds(conn.file.documents))
    ensures r.Found? ==> Some(r.document) == GetDocument(conn.file.Rows(), id)
  {
    var db := conn.GetDb();
    if db.None? || queryFails {
      return GetFailed(GetError);
    }
    var found := GetDocument(conn.file.Rows(), id);
    if found.None? {
      return NotFound;
    }
    r := Found(found.value);
  }

  lemma {:induction false} ChunkCountAppend(a: seq<ChunkRow>, b: seq<ChunkRow>, id: string)
    ensures ChunkCount(a + b, id) == ChunkCount(a, id) + ChunkCount(b, id)
    decreases |a|
  {
    if |a| == 0 {
      assert a + b == b;
    } else {
      assert (a + b)[1..] == a[1..] + b;
      ChunkCountAppend(a[1..], b, id);
    }
  }

  lemma {:induction false} ChunkCountOwn(rows: seq<ChunkRow>, id: string)
    requires forall i :: 0 <= i < |rows| ==> rows[i].documentId == id
    ensures ChunkCount(rows, id) == |rows|
    decreases |rows|
  {
    if |rows| > 0 {
      ChunkCountOwn(rows[1..], id);
    }
  }

  /** After a stored upload, `GET /:id` of the new document finds it and
      reports as many chunks as the upload's response. */
  lemma GetAfterUpload(t: Tables, files: set<string>, q: UploadRequest)
    requires Consistent(t) && ReachesChunks(t, q) && q.chunkWriteFailsAt.None?
    ensures var o := Upload(t, files, true, q);
      && GetDocument(o.tables, q.docId) == Some(DetailsOf(o.tables.chunks, NewDocument(q)))
      && GetDocument(o.tables, q.docId).value.chunkCount == |Pieces(q.extracted.value)|
  {
    UploadStores(t, files, q);
    var doc := NewDocument(q);
    var rows := ChunkRowsOf(q, Pieces(q.extracted.value));
    assert ChunkCount(t.chunks, q.docId) == 0 by {
      forall c | c in t.chunks ensures c.documentId != q.docId {
        assert c.documentId in DocumentIds(t.documents);
      }
    }
    ChunkCountAppend(t.chunks, rows, q.docId);
    ChunkCountOwn(rows, q.docId);
    FindAppended(t.documents, doc);
  }

  lemma {:induction false} FindAppended(ds: seq<DocumentRow>, d: DocumentRow)
    requires d.id !in DocumentIds(ds)
    ensures FindDocument(ds + [d], d.id) == Some(d)
    decreases |ds|
  {
    if |ds| == 0 {
      assert ds + [d] == [d];
    } else {
      assert ds[0] in ds;
      assert (ds + [d])[1..] == ds[1..] + [d];
      assert DocumentIds(ds[1..]) <= DocumentIds(ds) by {
        forall x | x in ds[1..] ensures x in ds { }
      }
      FindAppended(ds[1..], d);
    }
  }

  datatype DeleteResponse = Deleted | DeleteNotFound | DeleteFailed(error: string)

  const DeleteError := "Failed to delete document"

  /** The tables after `DELETE FROM documents WHERE id = ?` and its cascade. */
  function WithoutDocument(t: Tables, id: string): Tables {
    t.(documents := DocumentsWithout(t.documents, id), chunks := ChunksNotOf(t.chunks, id))
  }

  /** `DELETE /:id`; `lookupFails`, `deleteFails` and `unlinkFails` are
      failures of the lookup, of the delete and of removing the file. */
  method HandleDelete(conn: Connection, fs: FileSystem, id: string, lookupFails: bool, deleteFails: bool, unlinkFails: bool)
    returns (r: DeleteResponse)
    requires conn.Valid()
    modifies conn.file, fs
    ensures conn.Valid()
    ensures r.DeleteFailed? <==> conn.db == null || lookupFails || (id in DocumentIds(old(conn.file.documents)) && deleteFails)
    ensures r.DeleteFailed? ==> r.error == DeleteError
    ensures r.DeleteNotFound? <==> conn.db != null && !lookupFails && id !in DocumentIds(old(conn.file.documents))
    ensures r.Deleted? ==>
      && conn.file.Rows() == WithoutDocument(old(conn.file.Rows()), id)
      && var path := FindDocument(old(conn.file.documents), id).value.filePath;
         fs.files == if unlinkFails then old(fs.files) else old(fs.files) - {path}
    ensures !r.Deleted? ==> conn.file.Rows() == old(conn.file.Rows()) && fs.files == old(fs.files)
  {
    var db := conn.GetDb();
    if db.None? || lookupFails {
      return DeleteFailed(DeleteError);
    }
    var doc := FindDocument(conn.file.documents, id);
    if doc.None? {
      return DeleteNotFound;
    }
    if deleteFails {
      return DeleteFailed(DeleteError);
    }
    conn.file.DeleteDocument(id);
    if doc.value.filePath in fs.files && !unlinkFails {
      var _ := fs.Unlink(doc.value.filePath);
    }
    r := Deleted;
  }

  /** A delete removes the document and every chunk of it, keeps every
      other document with its chunk count, and afterwards `GET /:id`
      finds nothing. */
  lemma DeleteCascades(t: Tables, id: string)
    ensures var t' := WithoutDocument(t, id);
      && id !in DocumentIds(t'.documents)
      && ChunkCount(t'.chunks, id) == 0
      && (forall d :: d in t.documents && d.id != id ==> d in t'.documents)
      && (forall other :: other != id ==> ChunkCount(t'.chunks, other) == ChunkCount(t.chunks, other))
      && t'.sessions == t.sessions && t'.messages == t.messages
      && GetDocument(t', id).None?
  {
    forall other | other != id ensures ChunkCount(ChunksNotOf(t.chunks, id), other) == ChunkCount(t.chunks, other) {
      CascadeCount(t.chunks, id, other);
    }
    CascadeCount(t.chunks, id, id);
  }
}
