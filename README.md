# A verified model of a retrieval-augmented chat widget

This project models the core of a small customer-support chatbot:

- a browser widget that streams answers over Server-Sent Events;
- an Express back end that keeps sessions and messages in SQLite;
- a document store whose text is cut into overlapping word windows;
- a naive lexical search that feeds matching chunks into the prompt sent to a language model.

The model is written in Dafny 4.11, with proofs of its properties. Two modules hold shared helpers, and each of the others follows one source file:

| module | file | models |
|---|---|---|
| `Common` | common.dfy | whitespace, trimming, `startsWith`/`endsWith`/`includes`, joining, ASCII lower-casing, decimal printing |
| `Sorting` | sorting.dfy | `ORDER BY key LIMIT n` as a stable insertion sort by an integer key, and `reverse` |
| `Db` | db.dfy | the four tables of `src/db.js` and their schema rules; the store a handle writes to (class `Store`); the module-level handle with its init-once / close lifecycle (class `Connection`) |
| `TextUtil` | text.dfy | `chunkText`, `searchSimilarChunks`, `isValidFileType`, `getFileExtension` |
| `EventCodec` | events.dfy | the server's `data: {json}\n\n` frames for `token`, `done` and `error` events, and the client's decoder for them |
| `Chat` | chat.dfy | session resolution, saving messages, history, prompt assembly, the `/sse` handler, `GET`/`DELETE /history` |
| `Upload` | upload.dfy | the upload filter, the extractor dispatch, the upload route, and the list, get and delete routes |
| `Widget` | widget.dfy | the widget's stream reader (`sendMessage`), the typing indicator, and the round trip from the server's frames to the bubble text |

**Tables.** Each SQLite table is a sequence of rows. `Db.Consistent` states the schema as an invariant:

- unique primary keys;
- `role IN ('user','assistant')`;
- each message references a session, and each chunk references a document.

Every method of `Db.Store` keeps the invariant. A delete takes its `ON DELETE CASCADE` rows with it.

**Imperative code stays imperative.** Code that loops or changes state is a `method`, proved against a function that specifies it:

- the chunking loop;
- the chunk-insert loop;
- the token loop of `/sse`;
- the reader loop and the segment loop of the widget;
- the route handlers over a `Connection` and a `FileSystem`.

**Inputs.** Everything a request depends on outside the tables is an explicit input:

- fresh identifiers, clock readings and the digest function;
- the text a parser returned;
- the fragments the language model streams, and whether it fails;
- which storage operation fails.

## Model

| member | source | states |
|---|---|---|
| Common.TrimStart | src/utils/text.js:14-15 | the result is a suffix of the input that starts with a non-space (or is empty) |
| Common.TrimEnd | src/utils/text.js:14-15 | the result is a prefix of the input that ends with a non-space (or is empty) |
| Common.TrimStartRemovesBlank | src/utils/text.js:14-15 | everything `trim` drops in front is whitespace |
| Common.TrimEndRemovesBlank | src/utils/text.js:14-15 | everything `trim` drops at the end is whitespace |
| Common.TrimEmptyIffBlank | src/routes/chat.js:88-90 | `trim(s)` is empty exactly when `s` is all whitespace, which is the test behind `!message.trim()` |
| Common.TrimUnchanged | src/utils/text.js:14-15 | a string with non-space ends is its own trim |
| Common.Contains | src/routes/upload.js:78-83 | `includes(t)` holds exactly when `t` occurs at some position |
| Common.ConcatAppend | src/routes/chat.js:129-138 | concatenating fragments distributes over appending sequences |
| Common.LowerChar | src/utils/text.js:52 | `A`-`Z` map to `a`-`z` and every other character is kept |
| Common.Lower | src/utils/text.js:52 | lower-casing keeps length and lower-cases each character |
| Common.NatToString | src/routes/chat.js:97-99 | a number prints as a non-empty run of decimal digits that denotes it (`DigitsValue`), with no leading zero: `"0"` exactly for 0, and a longer numeral never starts with `0` |
| Sorting.InsertBy | src/utils/text.js:62-77 | insertion keeps the elements and keeps a sorted sequence sorted |
| Sorting.SortBy | src/routes/upload.js:209-231 | the result is a permutation of the input, sorted by the key |
| Sorting.OrderByLimit | src/utils/text.js:62-77 | `ORDER BY key LIMIT n`: min(n, length) elements, sorted, a sub-multiset of the input (no row repeated beyond its count), none larger than an element left out |
| Sorting.ReverseSameElements | src/routes/chat.js:62-80 | reversing is a permutation |
| Db.TouchActivity | src/routes/chat.js:40 | `UPDATE sessions SET last_activity`: same rows, only the matching row's `lastActivity` changes |
| Db.TouchKeepsIds | src/routes/chat.js:36-41 | the update keeps the set of session ids, and it changes nothing for an unknown id |
| Db.MessagesNotOf | src/routes/chat.js:178 | `DELETE FROM messages WHERE session_id = ?`: exactly the rows of other sessions remain |
| Db.MessagesNotOfIdempotent | src/routes/chat.js:172-180 | deleting a session's messages twice equals deleting them once |
| Db.SessionsWithout | src/db.js:37-41 | deleting a session removes exactly that id |
| Db.DocumentsWithout | src/routes/upload.js:260 | deleting a document removes exactly that id |
| Db.ChunksNotOf | src/db.js:74 | the cascade keeps exactly the chunks of other documents |
| Db.ChunkCount | src/routes/upload.js:209-231 | `COUNT(dc.id)` is 0 exactly when no chunk belongs to the document |
| Db.CascadeCount | src/db.js:74 | after the cascade the document has no chunks and every other document keeps its count |
| Db.MessagesNotOfKeepsKeys | src/db.js:44-51 | deleting messages keeps message ids unique |
| Db.ChunksNotOfKeepsKeys | src/db.js:67-75 | deleting chunks keeps chunk ids unique |
| Db.DocumentsWithoutKeepsKeys | src/db.js:54-64 | deleting a document keeps document ids unique |
| Db.SessionsWithoutKeepsKeys | src/db.js:37-41 | deleting a session keeps session ids unique |
| Db.AppendSessionConsistent | src/db.js:37-41 | inserting a session with a new id keeps the schema invariant |
| Db.TouchConsistent | src/db.js:37-41 | updating `last_activity` keeps the schema invariant |
| Db.AppendMessageConsistent | src/db.js:44-51 | inserting a message with a new id, an allowed role and an existing session keeps the invariant |
| Db.AppendDocumentConsistent | src/db.js:54-64 | inserting a document with a new id keeps the invariant |
| Db.AppendChunkConsistent | src/db.js:67-75 | inserting a chunk with a new id and an existing document keeps the invariant |
| Db.ClearMessagesConsistent | src/db.js:44-51 | deleting a session's messages keeps the invariant |
| Db.DeleteSessionConsistent | src/db.js:50 | deleting a session with its cascaded messages keeps the invariant |
| Db.DeleteDocumentConsistent | src/db.js:74 | deleting a document with its cascaded chunks keeps the invariant |
| Db.Store.constructor | src/db.js:35-75 | a freshly created schema has four empty tables and satisfies the invariant |
| Db.Store.InsertOrIgnoreSession | src/routes/chat.js:32-35 | `INSERT OR IGNORE`: adds the row unless its id exists, keeping the invariant |
| Db.Store.UpdateLastActivity | src/routes/chat.js:40 | the sessions table becomes `TouchActivity` of the old one, and nothing else changes |
| Db.Store.InsertMessage | src/db.js:44-51 | the insert succeeds exactly when the id is new, the role is allowed and the session exists; on success one row is appended, otherwise nothing changes |
| Db.Store.DeleteMessagesOf | src/routes/chat.js:178 | the messages table becomes `MessagesNotOf` of the old one |
| Db.Store.DeleteSession | src/db.js:50 | deletes the session and cascades to its messages |
| Db.Store.InsertDocument | src/db.js:54-64 | the insert succeeds exactly when the id is new; on success one row is appended |
| Db.Store.InsertChunk | src/db.js:67-75 | the insert succeeds exactly when the id is new and the document exists; on success one row is appended |
| Db.Store.DeleteDocument | src/db.js:74 | deletes the document and cascades to its chunks |
| Db.Connection.constructor | src/db.js:6 | the module starts with no handle |
| Db.Connection.GetDb | src/db.js:8-13 | `getDb` fails exactly when there is no handle, and otherwise returns the one handle |
| Db.Connection.EnsureDatabase | src/db.js:15-94 | init-once: an existing handle is returned unchanged, otherwise a fresh one is opened; no table changes |
| Db.Connection.CloseDatabase | src/db.js:96-107 | afterwards there is no handle (closing twice is harmless); no table changes |
| TextUtil.WordsWellFormed | src/utils/text.js:9 | `split(/\s+/).filter(w => w.length > 0)` yields non-empty words without whitespace |
| TextUtil.WordsEmptyIffBlank | src/utils/text.js:9 | there are no words exactly when the input is all whitespace |
| TextUtil.WordsOfJoin | src/utils/text.js:9-13 | splitting words joined by single spaces gives the words back |
| TextUtil.JoinTrimmed | src/utils/text.js:13-15 | a window joined by spaces is non-empty and its own trim, so the `if (chunk.trim())` guard always passes |
| TextUtil.ChunkText | src/utils/text.js:4-20 | the method with its `||` defaults is the sliding-window specification with stride `maxTokens - overlap` |
| TextUtil.SlideWindow | src/utils/text.js:12-17 | the `for` loop stepping by the stride pushes exactly the windows of the specification |
| TextUtil.NumberOfChunks | src/utils/text.js:12 | there are no chunks exactly when there are no words; otherwise there are ceil(n / stride) of them |
| TextUtil.ChunkTextBlank | src/utils/text.js:9-19 | blank input yields no chunks, and any other input yields at least one |
| TextUtil.ChunkAt | src/utils/text.js:12-13 | chunk k is the words from k·stride to k·stride + maxTokens, joined by single spaces |
| TextUtil.ChunkWords | src/utils/text.js:12-16 | the words of chunk k are exactly that window, between 1 and maxTokens of them |
| TextUtil.ChunksCover | src/utils/text.js:12 | when stride ≤ maxTokens, every word index lies in some chunk's window (no gaps) |
| TextUtil.ChunksOverlap | src/utils/text.js:12-13 | when the earlier chunk is full, consecutive chunks share exactly maxTokens − stride words |
| TextUtil.LongTerms | src/utils/text.js:52 | the kept terms are exactly those longer than two characters |
| TextUtil.FindDocument | src/utils/text.js:62-77 | the join finds the document with that id, or none exactly when no row has it |
| TextUtil.MatchingHits | src/utils/text.js:62-87 | every hit comes from a matching chunk joined with its document, and every such chunk yields a hit |
| TextUtil.HitMatches | src/utils/text.js:77 | a hit's lower-cased content contains the needle |
| TextUtil.SearchSimilarChunks | src/utils/text.js:46-96 | at most `limit` hits, in chunk-index order; each contains the whole lower-cased query and carries its document's chunk count; [] without terms longer than 2, without a database, or on a failed query; the hits are a sub-multiset of the matching hits, and no matching chunk left out has a smaller index than one returned |
| TextUtil.GetFileExtension | src/utils/text.js:121-142 | an extension is found exactly for the four valid types, and every other type maps to '' |
| EventCodec.HexRoundTrip | src/routes/chat.js:136 | a hex digit of a `\uXXXX` escape reads back as its value |
| EventCodec.UnquoteEscape | src/routes/chat.js:136 | the decoder reads an escaped string back up to its closing quote |
| EventCodec.DecodeEncode | src/routes/chat.js:136-150 | `JSON.parse` inverts `JSON.stringify` on every event the server writes |
| EventCodec.DecodeToken | src/routes/chat.js:136 | a token frame decodes to the same token |
| EventCodec.DecodeError | src/routes/chat.js:150 | an error frame decodes to the same error |
| EventCodec.EncodePrintable | src/routes/chat.js:136-150 | an encoded event holds no control character, so no raw newline |
| EventCodec.LineShape | src/routes/chat.js:136-150 | a frame's line starts with `data: `, holds no newline and ends with `}` |
| EventCodec.LineTrimmed | public/widget.js:581 | the client's `line.trim()` leaves a frame's line unchanged |
| EventCodec.FramesAppend | src/routes/chat.js:129-150 | the frames written for a sequence of events are the concatenation of their frames |
| EventCodec.FramesSnoc | src/routes/chat.js:145-150 | writing one more event appends its frame |
| Chat.ResolveSessionEffect | src/routes/chat.js:18-44 | without a cookie the fresh id's row exists afterwards (with created_at = last_activity when new); with one, the set of session ids is unchanged and an unknown id is not inserted; only the sessions table changes |
| Chat.GetOrCreateSession | src/routes/chat.js:18-44 | returns the presented id, or the fresh id with a 30-day cookie; fails exactly when there is no handle; the tables become `ResolveSession` of the old ones |
| Chat.SaveRowEffect | src/routes/chat.js:47-59 | a failing save changes nothing; otherwise the row is appended exactly when the write works and the schema allows it |
| Chat.SaveMessage | src/routes/chat.js:47-59 | the tables become `SaveRow` of the old ones, and the call fails only when there is no handle |
| Chat.MessagesOf | src/routes/chat.js:62-80 | exactly the messages of the session |
| Chat.RecentMessages | src/routes/chat.js:62-80 | min(limit, count) messages of the session, a sub-multiset of its rows, in ascending time, none older than a message left out |
| Chat.ReversedPage | src/routes/chat.js:62-80 | reversing the newest-first page gives it oldest first, with the same rows and the same multiset bound, each at least as new as every row left out |
| Chat.RecentTwoOfThree | src/routes/chat.js:62-80 | a session whose rows were written at t1 < t2 < t3, with a limit of 2, gives the rows of t2 and t3 in that order, whatever rows other sessions hold |
| Chat.LaterTwo | src/routes/chat.js:62-80 | any page meeting the contract of `RecentMessages` over rows at t1 < t2 < t3 with a limit of 2 is the rows of t2 and t3 |
| Chat.ChatHistory | src/routes/chat.js:62-80 | [] on a failed query; otherwise a `{role, content, created_at}` item for each recent message (`HistoryItem.createdAt` stands for the `created_at` column) |
| Chat.ChatHistoryRecent | src/routes/chat.js:62-80 | at most `limit` items, ascending in time, each from a message of the session |
| Chat.ContextItems | src/routes/chat.js:96-99 | one labelled item per retrieved chunk, in order |
| Chat.HistoryLines | src/routes/chat.js:102-105 | one role-labelled line per history item, in order |
| Chat.NonEmpty | src/routes/chat.js:117-122 | `.filter(Boolean)` keeps exactly the non-empty sections |
| Chat.SectionsPresent | src/routes/chat.js:96-122 | the context section is present exactly when chunks were found, and the history section exactly when there is history |
| Chat.PromptLayout | src/routes/chat.js:117-122 | the prompt is context, history, question and instruction, in that order, with empty sections left out and each one followed by a blank line except the last |
| Chat.ContextLabels | src/routes/chat.js:96-99 | item i opens with the 1-based label `# Tài liệu i+1` and ends with the chunk's content |
| Chat.TokenEvents | src/routes/chat.js:129-138 | every event written by the loop is a token with non-empty text |
| Chat.TokenTextOfFragments | src/routes/chat.js:129-138 | the token payloads, in order, concatenate to the accumulated `assistantText` |
| Chat.StreamEventsShape | src/routes/chat.js:129-151 | exactly one terminal event, last: `done` on completion or `error` on failure; the tokens spell the reply |
| Chat.StreamReply | src/routes/chat.js:129-138 | the loop writes one token frame per non-empty fragment, in arrival order, and accumulates the whole reply |
| Chat.HandleSse | src/routes/chat.js:83-153 | the handler's effect on the tables and its response equal the `Sse` specification, and what it writes is the frames of the returned events |
| Chat.SseWithoutDatabase | src/routes/chat.js:86-152 | without a handle the answer is one `error` event and nothing is written |
| Chat.SseRejectsBlankMessage | src/routes/chat.js:85-90 | a missing, non-string or blank message gets 400 after the session is resolved; no message is saved and no prompt is built |
| Chat.SseAnswers | src/routes/chat.js:93-151 | a valid message is answered by the token events and one terminal event; the user turn is added at most once, and the assistant turn at most once, holding the whole reply, only after a completed, non-blank reply (SseStoresBothTurns gives the case where both are stored) |
| Chat.SseStoresBothTurns | src/routes/chat.js:92-143 | when the session row exists or is created, both saves work and the ids are fresh, a completed non-blank reply appends exactly the user turn and then the assistant turn holding the whole reply |
| Chat.SseTables | src/routes/chat.js:86-143 | a valid message leaves the tables of the session step, then the user save, then the assistant save if the reply is complete and non-blank |
| Chat.BothTurnsSaved | src/routes/chat.js:92-143 | with the session present, both saves working and fresh ids, the two saves append the user turn and the assistant turn |
| Chat.SseGreetingStored | src/routes/chat.js:86-143 | a first visit asking "Xin chào", answered in the fragments "Xin", " chào", " bạn", stores the user turn "Xin chào" and the assistant turn "Xin chào bạn" under the new session |
| Chat.SsePrompt | src/routes/chat.js:117-122 | the prompt ends with the question and the fixed instruction |
| Chat.PromptEnds | src/routes/chat.js:117-122 | every assembled prompt ends with the question section followed by the instruction |
| Chat.SseUnknownSessionStoresNothing | src/routes/chat.js:36-41 | with a presented id that has no session row, the request changes no table: the session is not created and the messages are refused by the foreign key |
| Chat.GetHistory | src/routes/chat.js:156-169 | 500 without a handle; otherwise the 50 most recent turns of the resolved session, with its id |
| Chat.ClearHistoryIdempotent | src/routes/chat.js:172-180 | clearing removes every message of the session, keeps every other session's messages, and clearing again changes nothing |
| Chat.KeepOthers | src/routes/chat.js:178 | clearing one session leaves another session's messages as they were |
| Chat.ClearHistory | src/routes/chat.js:172-185 | succeeds exactly when there is a handle and the delete works, and the messages table then loses exactly that session's rows |
| Widget.Split | public/widget.js:577-578 | `split('\n\n')` yields at least one piece, and the first is a prefix of the input |
| Widget.SplitJoin | public/widget.js:577-578 | joining the pieces with `\n\n` gives the input back, and no piece contains `\n\n` |
| Widget.SplitFrames | public/widget.js:577-578 | the text of whole frames plus an unfinished tail splits into the frames' lines and the tail |
| Widget.PrefixOfFrames | public/widget.js:573-606 | any prefix of the server's output is some whole frames followed by a tail without a separator |
| Widget.ReadStepBuffer | public/widget.js:577-605 | after a read, the buffer is exactly the text after the last separator received so far |
| Widget.ProcessSegments | public/widget.js:580-603 | the inner `for` loop computes the bubble text of the segment specification, stopping at `done` or a non-empty `error` |
| Widget.ReadReplies | public/widget.js:573-606 | from any starting bubble text, the `while` loop's bubble and buffer are those of the reader specification over all reads |
| Widget.BatchOfLines | public/widget.js:580-603 | processing the lines of frames applies their events in order |
| Widget.ClientRunReplay | public/widget.js:573-606 | however the server's frames are cut into reads, the final bubble equals applying their events in order |
| Widget.ReplayTokens | public/widget.js:586-598 | tokens followed by `done` leave the tokens appended in order; a non-empty `error` leaves the apology |
| Widget.StreamRoundTrip | public/widget.js:573-606 | for any split into reads of what `/sse` writes, the bubble ends as the concatenated reply, or as the apology when the model failed |
| Widget.ErrorFrameShowsApology | public/widget.js:595-598 | an `error` frame replaces the bubble text with the fixed apology |
| Widget.SkippedSegment | public/widget.js:582-601 | a segment without the `data: ` prefix, or whose JSON does not parse, leaves the bubble unchanged |
| Widget.StopSegment | public/widget.js:591-598 | after `done` or a non-empty `error`, the rest of that read is discarded |
| Widget.ChatWidget.constructor | public/widget.js:453-454 | the widget starts with empty input, no bubbles and no typing indicator |
| Widget.ChatWidget.ShowTyping | public/widget.js:490-516 | afterwards `isTyping` holds; a second call adds no second indicator |
| Widget.ChatWidget.HideTyping | public/widget.js:519-525 | afterwards `isTyping` is false and the indicator is gone |
| Widget.ChatWidget.SendMessage | public/widget.js:533-546 | does nothing when the trimmed input is empty or a reply is awaited; otherwise sends the trimmed text, clears the input, adds the user bubble and shows the indicator |
| Widget.ChatWidget.ReceiveResponse | public/widget.js:549-612 | the settled request hides the indicator; an ok response adds an empty assistant bubble and returns its position, a refused one adds the failure notice |
| Widget.ChatWidget.StreamInto | public/widget.js:569-612 | the read loop's text replaces only the bubble at its own position, every other bubble is kept, and a failed read hides the indicator and adds the failure notice |
| Widget.ChatWidget.Type | public/widget.js:534 | the input field holds what the visitor typed, and nothing else changes |
| Widget.Exchange | public/widget.js:533-619 | one send on an idle widget adds the user bubble and the assistant bubble holding the streamed reply, and ends with no indicator |
| Widget.SecondSendWhileStreaming | public/widget.js:533-660 | because the indicator is hidden before the stream is read, a second message is accepted while the first reply streams, and each reply fills its own bubble |
| Upload.FilterAgreesWithTable | src/routes/upload.js:39-52 | the filter accepts exactly the four types, which are those `isValidFileType` and `getFileExtension` know |
| Upload.ExtractorOfPdf | src/routes/upload.js:78-81 | a PDF goes to the PDF parser |
| Upload.ExtractorOfDocx | src/routes/upload.js:83-86 | a DOCX never reaches the plain-text reader |
| Upload.ExtractorOfMsword | src/routes/upload.js:83-86 | `application/msword` goes to the Word extractor |
| Upload.ExtractorOfText | src/routes/upload.js:76-94 | plain text is read as text unless its path ends in `.docx` |
| Upload.WordTypeExtractor | src/routes/upload.js:78-86 | a type with no `f` that mentions `word` goes to the Word extractor |
| Upload.OtherTypeExtractor | src/routes/upload.js:76-94 | a type that mentions neither `pdf`, `word` nor `document` goes to the text reader unless the path ends in `.docx` |
| Upload.FileSystem.Unlink | src/routes/upload.js:118 | removes the file and reports failure exactly when it did not exist |
| Upload.ChunkRowsOf | src/routes/upload.js:163-174 | row i has index i, chunk i's text and its digest |
| Upload.FirstFailure | src/routes/upload.js:163-174 | the first rejected chunk insert, or all of them |
| Upload.HandleUpload | src/routes/upload.js:102-201 | the route's effect on the tables and the upload directory, and its response, equal the `Upload` specification |
| Upload.IngestText | src/routes/upload.js:116-174 | after extraction: the blank check, the duplicate check and the inserts, as specified by `Ingest` |
| Upload.RefuseUpload | src/routes/upload.js:116-143 | unlinks the staged file and answers the status, or 500 when the unlink fails |
| Upload.StoreText | src/routes/upload.js:146-174 | the document insert, the chunking and the chunk inserts, as specified by `StoreDocument` |
| Upload.InsertChunks | src/routes/upload.js:163-182 | the loop inserts rows 0.. up to the first failure, as specified by `StoreChunks` |
| Upload.UploadRejectsBlank | src/routes/upload.js:116-123 | blank text gives 400 with no row written and the staged file removed |
| Upload.UploadRejectsDuplicate | src/routes/upload.js:126-143 | a digest already stored gives 409 with no row written and the staged file removed |
| Upload.FirstFailureFresh | src/routes/upload.js:163-174 | with fresh ids after the document row, only an injected write failure stops the loop |
| Upload.ReachesStoreChunks | src/routes/upload.js:102-160 | past the checks, the route is the document insert followed by the chunk loop |
| Upload.StoreChunksFresh | src/routes/upload.js:163-174 | the loop stops at the injected failure, or runs through all rows |
| Upload.UploadTwiceConflicts | src/routes/upload.js:126-182 | uploading the same text twice stores it once: the second upload, hashing the same, gets 409 and leaves the tables as the first left them |
| Upload.UploadStores | src/routes/upload.js:146-182 | a stored upload adds one document and rows 0..n-1 of `chunkText(text, {500, 50})`, reports n ≥ 1 and keeps the file |
| Upload.StoreChunksAll | src/routes/upload.js:163-182 | when every insert works, all rows are added and the response reports their number |
| Upload.UploadKeepsPartialRows | src/routes/upload.js:146-200 | a failed write of chunk k keeps the document row and chunks 0..k-1 (no rollback), removes the staged file and answers 500 |
| Upload.ListDocuments | src/routes/upload.js:209-231 | one summary per document with its chunk count (0 allowed), newest first |
| Upload.Summaries | src/routes/upload.js:209-231 | one summary per document, in the documents' order |
| Upload.SummariesNewestFirst | src/routes/upload.js:209-231 | summaries of documents ordered newest first are ordered newest first |
| Upload.SummariesCoverDocuments | src/routes/upload.js:209-231 | the summaries are exactly those of the documents |
| Upload.HandleList | src/routes/upload.js:204-240 | the list, or the 500 error exactly when there is no handle or the query fails |
| Upload.GetDocument | src/routes/upload.js:292-317 | nothing for an unknown id; otherwise that document's fields and its chunk count |
| Upload.HandleGet | src/routes/upload.js:286-325 | 404 exactly for an unknown id; otherwise the document's details, or 500 on a failed query |
| Upload.ChunkCountAppend | src/routes/upload.js:209-231 | counting chunks distributes over appending rows |
| Upload.ChunkCountOwn | src/routes/upload.js:163-174 | rows that all belong to a document count in full |
| Upload.GetAfterUpload | src/routes/upload.js:146-182 | after a stored upload, getting the new document reports as many chunks as the upload's response |
| Upload.FindAppended | src/routes/upload.js:146-160 | a document appended with a new id is found |
| Upload.HandleDelete | src/routes/upload.js:243-283 | 404 with no change for an unknown id; otherwise the document and its chunks go, and the file is removed best-effort without affecting success; 500 on a failure |
| Upload.DeleteCascades | src/routes/upload.js:243-275 | a delete removes the document and all its chunks, keeps every other document and its count, and a later get finds nothing |

## Left out

- Upload.ExtractorOfDocx: proves only that the DOCX type never reaches the plain-text reader. That it goes to the Word extractor and not the PDF parser (the type contains no `pdf`) is not proved: it needs a scan over the 71-character literal that is too expensive to verify.
- TextUtil.ChunkText: requires `maxTokens > 0` and `overlap < maxTokens` after the `||` defaults, which hold at the only call site (500 and 50). Two kinds of option are left out. With a non-positive stride `maxTokens - overlap`, the loop never ends once there is a word. With a negative `maxTokens` and a positive stride (for example -10 and -60), the loop ends, but `slice(i, i + maxTokens)` counts its end from the back of the word array.
- TextUtil.SearchSimilarChunks:
  - lower-casing is ASCII-only, both for `toLowerCase` and SQLite's `LOWER` (see `Common.Lower` below);
  - `%` and `_` in the query are read literally, though `LIKE` treats them as wildcards;
  - a negative `LIMIT` is not modelled (the limit is a `nat`);
  - the default limit of 5 is passed explicitly at its single call site.
- Common.LowerChar: maps only `A`-`Z`. JavaScript's `toLowerCase` on the query (src/utils/text.js:52, 77) also folds non-ASCII capitals such as `Đ`, which SQLite's `LOWER` on the content (src/utils/text.js:74) leaves alone.
- Common.Lower: because of that, the query "Điện" finds a chunk containing "điện" in the source but not in the model. The `term.length > 2` filter counts UTF-16 code units in the source, while the model counts characters; the two differ only outside the Basic Multilingual Plane.
- Sorting.OrderByLimit: SQLite's order among rows with equal keys is unspecified. The model picks the stable insertion order, and no property depends on it.
- The sessions update and insert are fire-and-forget writes, modelled as completed in order. Concurrent requests, and the non-atomic hash check followed by the insert (there is no UNIQUE constraint on `content_hash`), are not modelled: each request runs alone.
- `uuid`, `sha256` and `Date.now()` are inputs. The source reads the clock separately for each row and for each column. The model takes one reading per request stage: the new session's `created_at` and `last_activity` are equal, and so are the document's timestamps and its chunks' timestamps.
- The PDF and DOCX parsers, multer's disk storage (its 10 MB limit and its random file names) and `requireAdmin` are left out: they are libraries and I/O. The text a parser returns, or its failure, is an input.
- `formatFileSize` (floating point), `formatDate` (locale formatting) and `buildSystemPrompt` (a constant) are not modelled.
- The language model's stream is the sequence of fragments it yields before ending, plus a flag for a failure after them.
- Widget.ChatWidget.StreamInto: the whole read loop is one step, so the model does not interleave the reads of two overlapping replies as the event loop can. Each reply writes only its own bubble, so the order of reads changes nothing in the bubbles' final texts. A failed read's `hideTyping` still clears the flag whichever send set it.
- The widget:
  - `TextDecoder` is not modelled: the stream is characters;
  - DOM construction, scrolling, the send button and `loadChatHistory` are not modelled; the widget's state is its input, its bubbles and the typing indicator;
  - the client's `JSON.parse` is modelled only for the three event shapes the server writes, and any other text counts as unparsable and is skipped.
- The `message` fields of error responses that come from a caught exception are not modelled. Responses are datatypes, not JSON bodies.
- `getFileExtension` looks up a plain object, so inherited keys such as `constructor` would also match. The model's map holds only the four types.
- `fs.existsSync` and `fs.unlinkSync` are modelled as membership in, and removal from, a set of paths.
