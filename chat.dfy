/** The chat routes of src/routes/chat.js: session resolution, message
    persistence, history, prompt assembly and the `/sse` streaming handler,
    over the tables of `Db`. Identifiers, clock readings, storage failures
    and the language model's reply are inputs. */
module Chat {
  import opened Common
  import opened Sorting
  import opened Db
  import opened TextUtil
  import opened EventCodec

  const MessageRequired := "Message is required"
  const ServiceUnavailable := "Chat service temporarily unavailable"
  const HistoryUnavailable := "Failed to get chat history"
  const ClearUnavailable := "Failed to clear chat history"

  /** Limits passed by the routes: context chunks, history turns in the
      prompt, and turns returned by `GET /history`. */
  const ContextLimit: nat := 5
  const PromptHistoryLimit: nat := 6
  const HistoryRouteLimit: nat := 50

  const ContextHeading := "Thông tin từ tài liệu:\n"
  const HistoryHeading := "Lịch sử hội thoại:\n"
  const QuestionLabel := "Câu hỏi hiện tại: "
  const Instruction := "Hãy trả lời một cách chuyên nghiệp, hữu ích và thân thiện. Nếu không chắc chắn về thông tin, hãy đề xuất khách hàng liên hệ trực tiếp với bộ phận hỗ trợ."

  // ---------------------------------------------------------------------
  // getOrCreateSession (src/routes/chat.js:18-44)
  // ---------------------------------------------------------------------

  /** The `sid` cookie set for a new session. */
  datatype SessionCookie = SessionCookie(value: string, httpOnly: bool, sameSite: string, maxAgeMs: int)

  function NewSessionCookie(sid: string): SessionCookie {
    SessionCookie(sid, true, "Lax", 30 * 24 * 3600 * 1000)
  }

  /** `req.cookies?.sid` is truthy: present and not the empty string. */
  predicate Presented(cookie: Option<string>) {
    cookie.Some? && cookie.value != ""
  }

  function SessionIdFor(cookie: Option<string>, freshId: string): string {
    if Presented(cookie) then cookie.value else freshId
  }

  function CookieFor(cookie: Option<string>, freshId: string): Option<SessionCookie> {
    if Presented(cookie) then None else Some(NewSessionCookie(freshId))
  }

  /** The tables after the session write: `INSERT OR IGNORE` of a new
      session whose creation and activity times coincide, or an `UPDATE`
      of the presented one; a failed write (`writeFails`) is swallowed. */
  function ResolveSession(t: Tables, cookie: Option<string>, freshId: string, now: int, writeFails: bool): Tables {
    if writeFails then t
    else if Presented(cookie) then t.(sessions := TouchActivity(t.sessions, cookie.value, now))
    else if freshId in SessionIds(t.sessions) then t
    else t.(sessions := t.sessions + [SessionRow(freshId, now, now)])
  }

  /** Without a cookie the fresh id is used and its session row exists
      afterwards; with one, the presented id is kept and the set of sessions
      does not change, so an id the table does not know is not created.
      Only the sessions table is written, and only last_activity of the
      presented row changes. */
  lemma ResolveSessionEffect(t: Tables, cookie: Option<string>, freshId: string, now: int, writeFails: bool)
    ensures var r := ResolveSession(t, cookie, freshId, now, writeFails);
      && r.messages == t.messages && r.documents == t.documents && r.chunks == t.chunks
      && (!Presented(cookie) && !writeFails ==> freshId in SessionIds(r.sessions))
      && (!Presented(cookie) && !writeFails && freshId !in SessionIds(t.sessions) ==>
            r.sessions == t.sessions + [SessionRow(freshId, now, now)])
      && (Presented(cookie) ==> SessionIds(r.sessions) == SessionIds(t.sessions))
      && (Presented(cookie) && cookie.value !in SessionIds(t.sessions) ==> r == t)
  {
    TouchKeepsIds(t.sessions, SessionIdFor(cookie, freshId), now);
    var r := ResolveSession(t, cookie, freshId, now, writeFails);
    if !Presented(cookie) && !writeFails && freshId !in SessionIds(t.sessions) {
      assert SessionRow(freshId, now, now) in r.sessions;
    }
  }

  /** `getOrCreateSession(req, res)`; `raised` where `getDb()` throws. The
      cookie is decided before the database is asked for. */
  method GetOrCreateSession(conn: Connection, cookie: Option<string>, freshId: string, now: int, writeFails: bool)
    returns (sid: string, setCookie: Option<SessionCookie>, raised: bool)
    requires conn.Valid()
    modifies conn.file
    ensures conn.Valid()
    ensures sid == SessionIdFor(cookie, freshId) && setCookie == CookieFor(cookie, freshId)
    ensures raised <==> conn.db == null
    ensures conn.file.Rows() ==
      if raised then old(conn.file.Rows()) else ResolveSession(old(conn.file.Rows()), cookie, freshId, now, writeFails)
  {
    if !Presented(cookie) {
      sid := freshId;
      setCookie := Some(NewSessionCookie(freshId));
      var h := conn.GetDb();
      raised := h.None?;
      if !raised && !writeFails {
        conn.file.InsertOrIgnoreSession(SessionRow(sid, now, now));
      }
    } else {
      sid := cookie.value;
      setCookie := None;
      var h := conn.GetDb();
      raised := h.None?;
      if !raised && !writeFails {
        conn.file.UpdateLastActivity(sid, now);
      }
    }
  }

  // ---------------------------------------------------------------------
  // saveMessage (src/routes/chat.js:47-59)
  // ---------------------------------------------------------------------

  /** The tables after an `INSERT INTO messages` whose failure is swallowed:
      the row is added when the write works and the schema accepts it. */
  function SaveRow(t: Tables, row: MessageRow, writeFails: bool): Tables {
    if !writeFails && MessageInsertable(t, row) then t.(messages := t.messages + [row]) else t
  }

  /** A save touches only the messages table and appends at most one row:
      this one, exactly when the write works, the id is new, the role is
      allowed and the session exists. */
  lemma SaveRowEffect(t: Tables, row: MessageRow, writeFails: bool)
    ensures var r := SaveRow(t, row, writeFails);
      && r.sessions == t.sessions && r.documents == t.documents && r.chunks == t.chunks
      && (r.messages == t.messages + [row] || r.messages == t.messages)
      && (row in r.messages && row !in t.messages <==>
            !writeFails && row.id !in MessageIds(t.messages) && ValidRole(row.role) && row.sessionId in SessionIds(t.sessions))
  {
    var r := SaveRow(t, row, writeFails);
    if row in t.messages {
      assert row.id in MessageIds(t.messages);
    }
    if !writeFails && MessageInsertable(t, row) {
      assert row in r.messages;
    }
  }

  /** `saveMessage(sessionId, role, content)`; `raised` where `getDb()`,
      called outside the `try`, throws. */
  method SaveMessage(conn: Connection, row: MessageRow, writeFails: bool) returns (raised: bool)
    requires conn.Valid()
    modifies conn.file
    ensures conn.Valid()
    ensures raised <==> conn.db == null
    ensures conn.file.Rows() == if raised then old(conn.file.Rows()) else SaveRow(old(conn.file.Rows()), row, writeFails)
  {
    var h := conn.GetDb();
    raised := h.None?;
    if !raised && !writeFails {
      var _ := conn.file.InsertMessage(row);
    }
  }

  // ---------------------------------------------------------------------
  // getChatHistory (src/routes/chat.js:62-80)
  // ---------------------------------------------------------------------

  /** A row of `SELECT role, content, created_at`. */
  datatype HistoryItem = HistoryItem(role: string, content: string, createdAt: int)

  function ItemOf(m: MessageRow): HistoryItem {
    HistoryItem(m.role, m.content, m.createdAt)
  }

  /** `WHERE session_id = sid`, in table order. */
  function MessagesOf(ms: seq<MessageRow>, sid: string): (r: seq<MessageRow>)
    ensures forall m :: m in r <==> m in ms && m.sessionId == sid
    decreases |ms|
  {
    if |ms| == 0 then []
    else if ms[0].sessionId == sid then [ms[0]] + MessagesOf(ms[1..], sid)
    else MessagesOf(ms[1..], sid)
  }

  /** The sort key of `ORDER BY created_at DESC`. */
  function NewestFirst(m: MessageRow): int { -m.createdAt }

  /** The `limit` most recent messages of session `sid`, oldest first:
      the query's newest-first page, reversed. */
  function RecentMessages(ms: seq<MessageRow>, sid: string, limit: nat): (r: seq<MessageRow>)
    ensures |r| == Min(limit, |MessagesOf(ms, sid)|)
    ensures forall m :: m in r ==> m in ms && m.sessionId == sid
    ensures forall i, j :: 0 <= i < j < |r| ==> r[i].createdAt <= r[j].createdAt
    ensures forall m :: m in ms && m.sessionId == sid && m !in r ==>
      (forall i :: 0 <= i < |r| ==> m.createdAt <= r[i].createdAt)
    ensures multiset(r) <= multiset(MessagesOf(ms, sid))
  {
    var all := MessagesOf(ms, sid);
    var page := OrderByLimit(all, NewestFirst, limit);
    ReversedPage(all, page);
    Reverse(page)
  }

  /** Of three messages of a session written at increasing times, a page
      of two holds the later two, oldest first, whatever other sessions'
      rows the table holds. */
  lemma RecentTwoOfThree(ms: seq<MessageRow>, sid: string, a: MessageRow, b: MessageRow, c: MessageRow)
    requires MessagesOf(ms, sid) == [a, b, c]
    requires a.createdAt < b.createdAt < c.createdAt
    ensures RecentMessages(ms, sid, 2) == [b, c]
  {
    var all := MessagesOf(ms, sid);
    var r := RecentMessages(ms, sid, 2);
    assert |r| == 2;
    assert r[0].createdAt <= r[1].createdAt;
    LaterTwo(a, b, c, all, r);
  }

  /** A page of two meeting the contract of `RecentMessages` over the rows
      `[a, b, c]` is `[b, c]`. */
  lemma LaterTwo(a: MessageRow, b: MessageRow, c: MessageRow, all: seq<MessageRow>, r: seq<MessageRow>)
    requires all == [a, b, c] && a.createdAt < b.createdAt < c.createdAt
    requires |r| == 2 && r[0].createdAt <= r[1].createdAt
    requires forall m :: m in r ==> m in all
    requires forall m :: m in all && m !in r ==> forall i :: 0 <= i < |r| ==> m.createdAt <= r[i].createdAt
    requires multiset(r) <= multiset(all)
    ensures r == [b, c]
  {
    assert a != b && a != c && b != c;
    assert r[0] in all && r[1] in all;
    assert c in r;
    assert r[1] == c;
    assert multiset(r)[c] <= multiset(all)[c] == 1;
    assert r == [r[0]] + [r[1]];
    assert multiset(r) == multiset{r[0]} + multiset{r[1]};
    assert r[0] != c;
    assert r[0] != a;
  }

  /** Reversing a newest-first page gives it oldest first, with the same
      rows, each at least as new as every row of `all` left out. */
  lemma ReversedPage(all: seq<MessageRow>, page: seq<MessageRow>)
    requires SortedBy(page, NewestFirst)
    requires forall x :: x in page ==> x in all
    requires forall x :: x in all && x !in page ==> forall i :: 0 <= i < |page| ==> NewestFirst(page[i]) <= NewestFirst(x)
    requires multiset(page) <= multiset(all)
    ensures forall x :: x in Reverse(page) ==> x in all
    ensures multiset(Reverse(page)) <= multiset(all)
    ensures forall i, j :: 0 <= i < j < |Reverse(page)| ==> Reverse(page)[i].createdAt <= Reverse(page)[j].createdAt
    ensures forall x :: x in all && x !in Reverse(page) ==>
      (forall i :: 0 <= i < |Reverse(page)| ==> x.createdAt <= Reverse(page)[i].createdAt)
  {
    var r := Reverse(page);
    ReverseSameElements(page);
    forall i, j | 0 <= i < j < |r| ensures r[i].createdAt <= r[j].createdAt {
      assert NewestFirst(page[|page| - 1 - j]) <= NewestFirst(page[|page| - 1 - i]);
    }
    forall x | x in r ensures x in page {
      var i :| 0 <= i < |r| && r[i] == x;
      assert page[|page| - 1 - i] == x;
    }
    forall x | x in page ensures x in r {
      var k :| 0 <= k < |page| && page[k] == x;
      assert r[|page| - 1 - k] == x;
    }
    forall x | x in all && x !in r
      ensures forall i :: 0 <= i < |r| ==> x.createdAt <= r[i].createdAt
    {
      forall i | 0 <= i < |r| ensures x.createdAt <= r[i].createdAt {
        assert r[i] == page[|page| - 1 - i];
      }
    }
  }

  /** `getChatHistory(sessionId, limit)` once `getDb()` has succeeded:
      the recent page as `{ role, content, created_at }` rows, or `[]` when
      the query fails. */
  function ChatHistory(ms: seq<MessageRow>, sid: string, limit: nat, queryFails: bool): (r: seq<HistoryItem>)
    ensures queryFails ==> r == []
    ensures !queryFails ==> (|r| == |RecentMessages(ms, sid, limit)|
      && forall i :: 0 <= i < |r| ==> r[i] == ItemOf(RecentMessages(ms, sid, limit)[i]))
  {
    if queryFails then []
    else
      var rows := RecentMessages(ms, sid, limit);
      seq(|rows|, i requires 0 <= i < |rows| => ItemOf(rows[i]))
  }

  /** The history holds at most `limit` turns of the session, in ascending
      time, and none older than a turn left out. */
  lemma ChatHistoryRecent(ms: seq<MessageRow>, sid: string, limit: nat, queryFails: bool)
    ensures var r := ChatHistory(ms, sid, limit, queryFails);
      && |r| <= limit
      && (forall i, j :: 0 <= i < j < |r| ==> r[i].createdAt <= r[j].createdAt)
      && (forall i :: 0 <= i < |r| ==> exists m :: m in ms && m.sessionId == sid && r[i] == ItemOf(m))
      && (!queryFails ==> |r| == Min(limit, |MessagesOf(ms, sid)|))
      && (!queryFails ==> forall m :: m in ms && m.sessionId == sid && m !in RecentMessages(ms, sid, limit) ==>
            (forall i :: 0 <= i < |r| ==> m.createdAt <= r[i].createdAt))
  {
    var r := ChatHistory(ms, sid, limit, queryFails);
    if !queryFails {
      var rows := RecentMessages(ms, sid, limit);
      forall i | 0 <= i < |r| ensures exists m :: m in ms && m.sessionId == sid && r[i] == ItemOf(m) {
        var m := rows[i];
        assert m in rows;
        assert m in ms && m.sessionId == sid && r[i] == ItemOf(m);
      }
    }
  }

  // ---------------------------------------------------------------------
  // Prompt assembly (src/routes/chat.js:96-122)
  // ---------------------------------------------------------------------

  /** `# Tài liệu ${i + 1}\n${chunk.content}`. */
  function ContextItem(i: nat, content: string): string {
    "# Tài liệu " + NatToString(i + 1) + "\n" + content
  }

  function ContextItems(hits: seq<ChunkHit>): (r: seq<string>)
    ensures |r| == |hits| && forall i :: 0 <= i < |hits| ==> r[i] == ContextItem(i, hits[i].content)
  {
    seq(|hits|, i requires 0 <= i < |hits| => ContextItem(i, hits[i].content))
  }

  function ContextText(hits: seq<ChunkHit>): string {
    if |hits| > 0 then Join(ContextItems(hits), "\n\n") else ""
  }

  /** `${role === 'user' ? 'Khách hàng' : 'Trợ lý'}: ${content}`. */
  function HistoryLine(m: HistoryItem): string {
    (if m.role == "user" then "Khách hàng" else "Trợ lý") + ": " + m.content
  }

  function HistoryLines(h: seq<HistoryItem>): (r: seq<string>)
    ensures |r| == |h| && forall i :: 0 <= i < |h| ==> r[i] == HistoryLine(h[i])
  {
    seq(|h|, i requires 0 <= i < |h| => HistoryLine(h[i]))
  }

  function HistoryText(h: seq<HistoryItem>): string {
    Join(HistoryLines(h), "\n")
  }

  /** `.filter(Boolean)`. */
  function NonEmpty(parts: seq<string>): (r: seq<string>)
    ensures forall p :: p in r <==> p in parts && p != ""
    decreases |parts|
  {
    if |parts| == 0 then []
    else if parts[0] != "" then [parts[0]] + NonEmpty(parts[1..])
    else NonEmpty(parts[1..])
  }

  function ContextSection(hits: seq<ChunkHit>): string {
    if ContextText(hits) != "" then ContextHeading + ContextText(hits) + "\n" else ""
  }

  function HistorySection(h: seq<HistoryItem>): string {
    if HistoryText(h) != "" then HistoryHeading + HistoryText(h) + "\n" else ""
  }

  /** The user prompt: the four parts with the empty ones dropped, joined
      by blank lines. */
  function UserPrompt(hits: seq<ChunkHit>, history: seq<HistoryItem>, message: string): string {
    Join(NonEmpty([ContextSection(hits), HistorySection(history), QuestionLabel + message, Instruction]), "\n\n")
  }

  /** The context section is present exactly when chunks were found, and
      the history section exactly when there is history. */
  lemma SectionsPresent(hits: seq<ChunkHit>, history: seq<HistoryItem>)
    ensures ContextSection(hits) != "" <==> |hits| > 0
    ensures HistorySection(history) != "" <==> |history| > 0
  {
    if |hits| > 0 {
      JoinFirst(ContextItems(hits), "\n\n");
    }
    if |history| > 0 {
      assert HistoryLine(history[0]) != [];
      JoinFirst(HistoryLines(history), "\n");
    }
  }

  /** The prompt is, in this order, the context section, the history
      section, the question and the fixed instruction, each non-empty one
      followed by a blank line except the last. */
  lemma PromptLayout(hits: seq<ChunkHit>, history: seq<HistoryItem>, message: string)
    ensures UserPrompt(hits, history, message) ==
      (if |hits| > 0 then ContextHeading + ContextText(hits) + "\n" + "\n\n" else "")
      + (if |history| > 0 then HistoryHeading + HistoryText(history) + "\n" + "\n\n" else "")
      + (QuestionLabel + message + "\n\n" + Instruction)
  {
    var c, h, q := ContextSection(hits), HistorySection(history), QuestionLabel + message;
    SectionsPresent(hits, history);
    assert |Instruction| > 0;
    JoinParts(c, h, q, Instruction, "\n\n");
    assert UserPrompt(hits, history, message) == Join(NonEmpty([c, h, q, Instruction]), "\n\n");
    assert c == if |hits| > 0 then ContextHeading + ContextText(hits) + "\n" else "";
    assert h == if |history| > 0 then HistoryHeading + HistoryText(history) + "\n" else "";
  }

  /** `[c, h, q, i].filter(Boolean).join(sep)` with `q` and `i` non-empty. */
  lemma JoinParts(c: string, h: string, q: string, i: string, sep: string)
    requires q != "" && i != ""
    ensures Join(NonEmpty([c, h, q, i]), sep) ==
      (if c != "" then c + sep else "") + (if h != "" then h + sep else "") + (q + sep + i)
  {
    var tail := [q, i];
    assert [q] + [i] == tail && [i] + [] == [i];
    NonEmptyCons(i, []);
    NonEmptyCons(q, [i]);
    JoinCons(q, [i], sep);
    assert [c, h, q, i] == [c] + ([h] + tail);
    JoinNonEmptyCons(h, tail, sep);
    JoinNonEmptyCons(c, [h] + tail, sep);
  }

  /** Filtering and joining a part in front of a list that keeps an element. */
  lemma JoinNonEmptyCons(p: string, rest: seq<string>, sep: string)
    requires NonEmpty(rest) != []
    ensures Join(NonEmpty([p] + rest), sep) == (if p != "" then p + sep else "") + Join(NonEmpty(rest), sep)
  {
    NonEmptyCons(p, rest);
    if p != "" {
      JoinCons(p, NonEmpty(rest), sep);
    }
  }

  lemma NonEmptyCons(p: string, rest: seq<string>)
    ensures NonEmpty([p] + rest) == (if p != "" then [p] else []) + NonEmpty(rest)
  {
    assert ([p] + rest)[1..] == rest;
  }

  lemma JoinCons(w: string, rest: seq<string>, sep: string)
    requires |rest| > 0
    ensures Join([w] + rest, sep) == w + sep + Join(rest, sep)
  {
    assert ([w] + rest)[1..] == rest;
  }

  /** The context labels count from 1 in retrieval order. */
  lemma ContextLabels(hits: seq<ChunkHit>, i: nat)
    requires i < |hits|
    ensures StartsWith(ContextItems(hits)[i], "# Tài liệu " + NatToString(i + 1) + "\n")
    ensures EndsWith(ContextItems(hits)[i], hits[i].content)
  {
  }

  // ---------------------------------------------------------------------
  // The model's reply stream (src/routes/chat.js:129-138)
  // ---------------------------------------------------------------------

  /** One token event per non-empty fragment, in arrival order. */
  function TokenEvents(fs: seq<string>): (r: seq<ChatEvent>)
    ensures forall i :: 0 <= i < |r| ==> r[i].Token? && r[i].text != ""
    decreases |fs|
  {
    if |fs| == 0 then []
    else TokenEvents(fs[..|fs| - 1]) + (if fs[|fs| - 1] != "" then [Token(fs[|fs| - 1])] else [])
  }

  /** The concatenated payloads of the token events of `es`. */
  function TokenText(es: seq<ChatEvent>): string
    decreases |es|
  {
    if |es| == 0 then "" else (if es[0].Token? then es[0].text else "") + TokenText(es[1..])
  }

  lemma {:induction false} TokenTextAppend(a: seq<ChatEvent>, b: seq<ChatEvent>)
    ensures TokenText(a + b) == TokenText(a) + TokenText(b)
    decreases |a|
  {
    if |a| == 0 {
      assert a + b == b;
    } else {
      assert (a + b)[1..] == a[1..] + b;
      TokenTextAppend(a[1..], b);
    }
  }

  /** The token payloads, concatenated, are exactly the accumulated
      assistant text: skipping empty fragments loses nothing. */
  lemma {:induction false} TokenTextOfFragments(fs: seq<string>)
    ensures TokenText(TokenEvents(fs)) == Concat(fs)
    decreases |fs|
  {
    if |fs| > 0 {
      var init, last := fs[..|fs| - 1], fs[|fs| - 1];
      TokenTextOfFragments(init);
      var tail: seq<ChatEvent> := if last != "" then [Token(last)] else [];
      TokenTextAppend(TokenEvents(init), tail);
      assert init + [last] == fs;
      ConcatAppend(init, [last]);
      assert Concat([last]) == last + Concat([]);
    }
  }

  /** The events of a stream that delivered `fs`: the tokens and one
      terminal event, `error` when the stream failed and `done` otherwise. */
  function StreamEvents(fs: seq<string>, fails: bool): seq<ChatEvent> {
    TokenEvents(fs) + [if fails then Error(ServiceUnavailable) else Done]
  }

  /** Exactly one terminal event, and it is the last. */
  lemma StreamEventsShape(fs: seq<string>, fails: bool)
    ensures var es := StreamEvents(fs, fails);
      && |es| == |TokenEvents(fs)| + 1
      && (forall i :: 0 <= i < |es| - 1 ==> es[i].Token? && es[i].text != "")
      && es[|es| - 1] == (if fails then Error(ServiceUnavailable) else Done)
      && TokenText(es) == Concat(fs)
  {
    var es := StreamEvents(fs, fails);
    TokenTextOfFragments(fs);
    TokenTextAppend(TokenEvents(fs), [es[|es| - 1]]);
    assert TokenText([es[|es| - 1]]) == "" + TokenText([]);
    assert forall i :: 0 <= i < |es| - 1 ==> es[i] == TokenEvents(fs)[i];
  }

  /** The `for await` loop: forwards every non-empty fragment as a token
      frame and accumulates the assistant text. */
  method StreamReply(fs: seq<string>) returns (events: seq<ChatEvent>, written: string, assistantText: string)
    ensures events == TokenEvents(fs) && written == Frames(events) && assistantText == Concat(fs)
  {
    events, written, assistantText := [], "", "";
    var k := 0;
    while k < |fs|
      invariant 0 <= k <= |fs|
      invariant events == TokenEvents(fs[..k]) && written == Frames(events)
      invariant assistantText == Concat(fs[..k])
    {
      var text := fs[k];
      StreamStep(fs, k);
      if text != "" {
        assistantText := assistantText + text;
        FramesSnoc(events, Token(text));
        events := events + [Token(text)];
        written := written + Frame(Token(text));
      }
      k := k + 1;
    }
    assert fs[..k] == fs;
  }

  /** One more fragment extends the events and the text by that fragment. */
  lemma StreamStep(fs: seq<string>, k: nat)
    requires k < |fs|
    ensures TokenEvents(fs[..k + 1]) == TokenEvents(fs[..k]) + (if fs[k] != "" then [Token(fs[k])] else [])
    ensures Concat(fs[..k + 1]) == Concat(fs[..k]) + fs[k]
  {
    ConcatAppend(fs[..k], [fs[k]]);
    assert Concat([fs[k]]) == fs[k] + Concat([]);
    assert fs[..k + 1] == fs[..k] + [fs[k]];
    assert fs[..k + 1][..k] == fs[..k];
  }

  // ---------------------------------------------------------------------
  // POST /sse (src/routes/chat.js:83-153)
  // ---------------------------------------------------------------------

  /** `req.body.message`: a string, or some other value or none at all. */
  datatype MessageField = NotText | Text(text: string)

  /** The check of line 88: a string that does not trim to empty. */
  predicate ValidMessage(m: MessageField) {
    m.Text? && Trim(m.text) != ""
  }

  /** Everything outside the tables that one `/sse` request depends on:
      the cookie and body, the fresh ids and clock readings, which storage
      writes and queries fail, and what the language model streams before
      it ends (`modelFails` when it breaks off). */
  datatype SseRequest = SseRequest(
    cookie: Option<string>, message: MessageField,
    freshSid: string, sessionNow: int, sessionWriteFails: bool,
    userId: string, userNow: int, userSaveFails: bool,
    searchFails: bool, historyFails: bool,
    fragments: seq<string>, modelFails: bool,
    assistantId: string, assistantNow: int, assistantSaveFails: bool)

  datatype SseResponse = BadRequest(error: string) | EventStream(events: seq<ChatEvent>)

  datatype SseResult = SseResult(setCookie: Option<SessionCookie>, response: SseResponse, prompt: Option<string>)

  datatype SseOutcome = SseOutcome(tables: Tables, result: SseResult)

  function UserRow(q: SseRequest): MessageRow
    requires q.message.Text?
  {
    MessageRow(q.userId, SessionIdFor(q.cookie, q.freshSid), "user", q.message.text, q.userNow)
  }

  function AssistantRow(q: SseRequest): MessageRow {
    MessageRow(q.assistantId, SessionIdFor(q.cookie, q.freshSid), "assistant", Concat(q.fragments), q.assistantNow)
  }

  /** The user prompt built once the user turn is stored: up to five
      matching chunks and the six most recent turns of the session. */
  function PromptFor(t: Tables, q: SseRequest): string
    requires q.message.Text?
  {
    UserPrompt(SearchSimilarChunks(Some(t), q.message.text, ContextLimit, q.searchFails),
               ChatHistory(t.messages, SessionIdFor(q.cookie, q.freshSid), PromptHistoryLimit, q.historyFails),
               q.message.text)
  }

  /** The tables after the reply: the assistant turn is saved only after
      a completed reply whose text is not blank. */
  function AfterReply(t: Tables, q: SseRequest): Tables {
    if !q.modelFails && Trim(Concat(q.fragments)) != "" then SaveRow(t, AssistantRow(q), q.assistantSaveFails) else t
  }

  /** What one `/sse` request does to the tables and what it answers, with
      `open` telling whether a database handle exists. */
  function Sse(t: Tables, open: bool, q: SseRequest): SseOutcome {
    var cookie := CookieFor(q.cookie, q.freshSid);
    if !open then SseOutcome(t, SseResult(cookie, EventStream([Error(ServiceUnavailable)]), None))
    else
      var t1 := ResolveSession(t, q.cookie, q.freshSid, q.sessionNow, q.sessionWriteFails);
      if !ValidMessage(q.message) then SseOutcome(t1, SseResult(cookie, BadRequest(MessageRequired), None))
      else
        var t2 := SaveRow(t1, UserRow(q), q.userSaveFails);
        SseOutcome(AfterReply(t2, q),
                   SseResult(cookie, EventStream(StreamEvents(q.fragments, q.modelFails)), Some(PromptFor(t2, q))))
  }

  /** The `/sse` handler. `written` is what `res.write` sent, frame by
      frame. */
  method HandleSse(conn: Connection, q: SseRequest) returns (r: SseResult, written: string)
    requires conn.Valid()
    modifies conn.file
    ensures conn.Valid()
    ensures var o := Sse(old(conn.file.Rows()), conn.db != null, q); conn.file.Rows() == o.tables && r == o.result
    ensures written == if r.response.EventStream? then Frames(r.response.events) else ""
  {
    var sid, cookie, raised := GetOrCreateSession(conn, q.cookie, q.freshSid, q.sessionNow, q.sessionWriteFails);
    if raised {
      r := SseResult(cookie, EventStream([Error(ServiceUnavailable)]), None);
      written := Frame(Error(ServiceUnavailable));
      FramesSnoc([], Error(ServiceUnavailable));
      assert [] + [Error(ServiceUnavailable)] == [Error(ServiceUnavailable)];
      return;
    }
    if !ValidMessage(q.message) {
      r := SseResult(cookie, BadRequest(MessageRequired), None);
      written := "";
      return;
    }
    var message := q.message.text;
    var _ := SaveMessage(conn, UserRow(q), q.userSaveFails);
    ghost var stored := conn.file.Rows();
    var hits := SearchSimilarChunks(Some(conn.file.Rows()), message, ContextLimit, q.searchFails);
    var history := ChatHistory(conn.file.messages, sid, PromptHistoryLimit, q.historyFails);
    var prompt := UserPrompt(hits, history, message);
    assert prompt == PromptFor(stored, q);
    var events, assistantText;
    events, written, assistantText := StreamReply(q.fragments);
    var last := if q.modelFails then Error(ServiceUnavailable) else Done;
    if !q.modelFails && Trim(assistantText) != "" {
      var _ := SaveMessage(conn, AssistantRow(q), q.assistantSaveFails);
    }
    assert conn.file.Rows() == AfterReply(stored, q);
    FramesSnoc(events, last);
    events := events + [last];
    written := written + Frame(last);
    r := SseResult(cookie, EventStream(events), Some(prompt));
  }

  /** Without a database handle every request, whatever its message,
      gets a stream holding one `error` event, and nothing is written. */
  lemma SseWithoutDatabase(t: Tables, q: SseRequest)
    ensures Sse(t, false, q).result.response == EventStream([Error(ServiceUnavailable)])
    ensures Sse(t, false, q).tables == t
  {
  }

  /** A missing, non-string or blank message gets 400 once the session
      has been resolved: no message is saved, no prompt is built and no
      event is written. */
  lemma SseRejectsBlankMessage(t: Tables, q: SseRequest)
    requires !ValidMessage(q.message)
    ensures var o := Sse(t, true, q);
      && o.result.response == BadRequest(MessageRequired) && o.result.prompt.None?
      && o.tables == ResolveSession(t, q.cookie, q.freshSid, q.sessionNow, q.sessionWriteFails)
      && o.tables.messages == t.messages
  {
    ResolveSessionEffect(t, q.cookie, q.freshSid, q.sessionNow, q.sessionWriteFails);
  }

  /** A valid message is answered by the token events of the reply and
      one terminal event; the messages table gains the user turn (when it
      can be saved) and then the assistant turn, holding the whole reply,
      only after a completed, non-blank reply. */
  lemma SseAnswers(t: Tables, q: SseRequest)
    requires ValidMessage(q.message)
    ensures var o := Sse(t, true, q);
      && o.result.response == EventStream(StreamEvents(q.fragments, q.modelFails))
      && var m1 := SaveRow(ResolveSession(t, q.cookie, q.freshSid, q.sessionNow, q.sessionWriteFails), UserRow(q), q.userSaveFails).messages;
         && (m1 == t.messages || m1 == t.messages + [UserRow(q)])
         && (q.modelFails || Trim(Concat(q.fragments)) == "" ==> o.tables.messages == m1)
         && (o.tables.messages == m1 || o.tables.messages == m1 + [AssistantRow(q)])
         && AssistantRow(q).content == Concat(q.fragments)
  {
    var t1 := ResolveSession(t, q.cookie, q.freshSid, q.sessionNow, q.sessionWriteFails);
    ResolveSessionEffect(t, q.cookie, q.freshSid, q.sessionNow, q.sessionWriteFails);
    SaveRowEffect(t1, UserRow(q), q.userSaveFails);
    var t2 := SaveRow(t1, UserRow(q), q.userSaveFails);
    SaveRowEffect(t2, AssistantRow(q), q.assistantSaveFails);
  }

  /** When the session row exists or is created, both saves work and the
      two message ids are fresh, a completed non-blank reply leaves exactly
      the user turn and then the assistant turn, holding the whole reply,
      appended to the messages table. */
  lemma SseStoresBothTurns(t: Tables, q: SseRequest)
    requires ValidMessage(q.message) && !q.sessionWriteFails
    requires Presented(q.cookie) ==> q.cookie.value in SessionIds(t.sessions)
    requires !q.userSaveFails && !q.modelFails && Trim(Concat(q.fragments)) != "" && !q.assistantSaveFails
    requires q.userId !in MessageIds(t.messages) && q.assistantId !in MessageIds(t.messages) && q.userId != q.assistantId
    ensures Sse(t, true, q).tables.messages == t.messages + [UserRow(q), AssistantRow(q)]
  {
    SseTables(t, q);
    var t1 := ResolveSession(t, q.cookie, q.freshSid, q.sessionNow, q.sessionWriteFails);
    ResolveSessionEffect(t, q.cookie, q.freshSid, q.sessionNow, q.sessionWriteFails);
    BothTurnsSaved(t, t1, q);
  }

  /** The tables a valid `/sse` request leaves. */
  lemma SseTables(t: Tables, q: SseRequest)
    requires ValidMessage(q.message)
    ensures Sse(t, true, q).tables ==
      AfterReply(SaveRow(ResolveSession(t, q.cookie, q.freshSid, q.sessionNow, q.sessionWriteFails), UserRow(q), q.userSaveFails), q)
  {
  }

  lemma BothTurnsSaved(t: Tables, t1: Tables, q: SseRequest)
    requires q.message.Text? && t1.messages == t.messages && SessionIdFor(q.cookie, q.freshSid) in SessionIds(t1.sessions)
    requires !q.userSaveFails && !q.modelFails && Trim(Concat(q.fragments)) != "" && !q.assistantSaveFails
    requires q.userId !in MessageIds(t.messages) && q.assistantId !in MessageIds(t.messages) && q.userId != q.assistantId
    ensures AfterReply(SaveRow(t1, UserRow(q), q.userSaveFails), q).messages == t.messages + [UserRow(q), AssistantRow(q)]
  {
    assert MessageInsertable(t1, UserRow(q));
    var t2 := SaveRow(t1, UserRow(q), q.userSaveFails);
    assert t2.messages == t.messages + [UserRow(q)];
    assert q.assistantId !in MessageIds(t2.messages) by {
      forall m | m in t2.messages ensures m.id != q.assistantId {
        if m !in t.messages {
          assert m == UserRow(q);
        }
      }
    }
    assert MessageInsertable(t2, AssistantRow(q));
  }

  /** A first visit asking "Xin chào", answered in three fragments, stores
      the question and the reply "Xin chào bạn" as the session's two turns. */
  lemma SseGreetingStored(q: SseRequest)
    requires q.cookie == None && q.message == Text("Xin chào") && q.fragments == ["Xin", " chào", " bạn"]
    requires !q.sessionWriteFails && !q.userSaveFails && !q.modelFails && !q.assistantSaveFails
    requires q.userId != q.assistantId
    ensures Sse(Tables([], [], [], []), true, q).tables.messages ==
      [MessageRow(q.userId, q.freshSid, "user", "Xin chào", q.userNow),
       MessageRow(q.assistantId, q.freshSid, "assistant", "Xin chào bạn", q.assistantNow)]
  {
    GreetingReply();
    GreetingNotBlank(q.message.text, Concat(q.fragments));
    SseStoresBothTurns(Tables([], [], [], []), q);
  }

  lemma GreetingReply()
    ensures Concat(["Xin", " chào", " bạn"]) == "Xin chào bạn"
  {
    var fs := ["Xin", " chào", " bạn"];
    assert fs[1..][1..][1..] == [];
  }

  /** Neither greeting is blank: each starts and ends with a letter. */
  lemma GreetingNotBlank(m: string, reply: string)
    requires m == "Xin chào" && reply == "Xin chào bạn"
    ensures Trim(m) != "" && Trim(reply) != ""
  {
    NotBlankBetweenLetters(m, 'X', 'o');
    NotBlankBetweenLetters(reply, 'X', 'n');
  }

  lemma NotBlankBetweenLetters(s: string, first: char, last: char)
    requires |s| > 0 && s[0] == first && s[|s| - 1] == last
    requires 'A' <= first <= 'z' && 'A' <= last <= 'z'
    ensures Trim(s) != ""
  {
    TrimUnchanged(s);
  }

  /** The prompt for a valid message ends with the question and the
      instruction, and opens with the context section exactly when
      retrieval found chunks. */
  lemma SsePrompt(t: Tables, q: SseRequest)
    requires ValidMessage(q.message)
    ensures var p := Sse(t, true, q).result.prompt;
      && p.Some?
      && EndsWith(p.value, QuestionLabel + q.message.text + "\n\n" + Instruction)
  {
    var t2 := SaveRow(ResolveSession(t, q.cookie, q.freshSid, q.sessionNow, q.sessionWriteFails), UserRow(q), q.userSaveFails);
    var hits := SearchSimilarChunks(Some(t2), q.message.text, ContextLimit, q.searchFails);
    var history := ChatHistory(t2.messages, SessionIdFor(q.cookie, q.freshSid), PromptHistoryLimit, q.historyFails);
    PromptEnds(hits, history, q.message.text);
  }

  lemma PromptEnds(hits: seq<ChunkHit>, history: seq<HistoryItem>, message: string)
    ensures EndsWith(UserPrompt(hits, history, message), QuestionLabel + message + "\n\n" + Instruction)
  {
    PromptLayout(hits, history, message);
    var head := (if |hits| > 0 then ContextHeading + ContextText(hits) + "\n" + "\n\n" else "")
      + (if |history| > 0 then HistoryHeading + HistoryText(history) + "\n" + "\n\n" else "");
    EndsWithAppend(head, QuestionLabel + message + "\n\n" + Instruction);
  }

  lemma EndsWithAppend(a: string, b: string)
    ensures EndsWith(a + b, b)
  {
    assert (a + b)[|a + b| - |b|..] == b;
  }

  /** A presented session id that the table does not know is never
      created, so the foreign key rejects every message of the request:
      neither the question nor the answer is stored. */
  lemma SseUnknownSessionStoresNothing(t: Tables, q: SseRequest)
    requires Presented(q.cookie) && q.cookie.value !in SessionIds(t.sessions)
    ensures Sse(t, true, q).tables == t
  {
    ResolveSessionEffect(t, q.cookie, q.freshSid, q.sessionNow, q.sessionWriteFails);
  }

  // ---------------------------------------------------------------------
  // GET /history and DELETE /history (src/routes/chat.js:156-185)
  // ---------------------------------------------------------------------

  datatype HistoryResponse = HistoryPage(messages: seq<HistoryItem>, sessionId: string) | HistoryError(error: string)

  /** `GET /history`: the 50 most recent turns of the session. */
  method GetHistory(conn: Connection, cookie: Option<string>, freshId: string, now: int, writeFails: bool, queryFails: bool)
    returns (setCookie: Option<SessionCookie>, response: HistoryResponse)
    requires conn.Valid()
    modifies conn.file
    ensures conn.Valid() && setCookie == CookieFor(cookie, freshId)
    ensures conn.db == null ==> response == HistoryError(HistoryUnavailable) && conn.file.Rows() == old(conn.file.Rows())
    ensures conn.db != null ==>
      && conn.file.Rows() == ResolveSession(old(conn.file.Rows()), cookie, freshId, now, writeFails)
      && response == HistoryPage(ChatHistory(old(conn.file.messages), SessionIdFor(cookie, freshId), HistoryRouteLimit, queryFails),
                                 SessionIdFor(cookie, freshId))
  {
    ResolveSessionEffect(conn.file.Rows(), cookie, freshId, now, writeFails);
    var sid, raised;
    sid, setCookie, raised := GetOrCreateSession(conn, cookie, freshId, now, writeFails);
    if raised {
      response := HistoryError(HistoryUnavailable);
    } else {
      response := HistoryPage(ChatHistory(conn.file.messages, sid, HistoryRouteLimit, queryFails), sid);
    }
  }

  /** Clearing removes every message of the session, keeps every message
      of the others, and clearing again changes nothing. */
  lemma ClearHistoryIdempotent(ms: seq<MessageRow>, sid: string)
    ensures MessagesOf(MessagesNotOf(ms, sid), sid) == []
    ensures forall other :: other != sid ==> MessagesOf(MessagesNotOf(ms, sid), other) == MessagesOf(ms, other)
    ensures MessagesNotOf(MessagesNotOf(ms, sid), sid) == MessagesNotOf(ms, sid)
  {
    MessagesNotOfIdempotent(ms, sid);
    var r := MessagesNotOf(ms, sid);
    forall other | other != sid ensures MessagesOf(r, other) == MessagesOf(ms, other) {
      KeepOthers(ms, sid, other);
    }
  }

  lemma {:induction false} KeepOthers(ms: seq<MessageRow>, sid: string, other: string)
    requires other != sid
    ensures MessagesOf(MessagesNotOf(ms, sid), other) == MessagesOf(ms, other)
    decreases |ms|
  {
    if |ms| > 0 {
      KeepOthers(ms[1..], sid, other);
      if ms[0].sessionId != sid {
        assert ([ms[0]] + MessagesNotOf(ms[1..], sid))[1..] == MessagesNotOf(ms[1..], sid);
      }
    }
  }

  datatype ClearResponse = Cleared | ClearError(error: string)

  /** `DELETE /history`. */
  method ClearHistory(conn: Connection, cookie: Option<string>, freshId: string, now: int, writeFails: bool, deleteFails: bool)
    returns (setCookie: Option<SessionCookie>, response: ClearResponse)
    requires conn.Valid()
    modifies conn.file
    ensures conn.Valid() && setCookie == CookieFor(cookie, freshId)
    ensures response.Cleared? <==> conn.db != null && !deleteFails
    ensures response.ClearError? ==> response.error == ClearUnavailable
    ensures conn.db == null ==> conn.file.Rows() == old(conn.file.Rows())
    ensures conn.db != null ==>
      var t1 := ResolveSession(old(conn.file.Rows()), cookie, freshId, now, writeFails);
      conn.file.Rows() == if deleteFails then t1 else t1.(messages := MessagesNotOf(t1.messages, SessionIdFor(cookie, freshId)))
  {
    var sid, raised;
    sid, setCookie, raised := GetOrCreateSession(conn, cookie, freshId, now, writeFails);
    if raised {
      response := ClearError(ClearUnavailable);
      return;
    }
    if deleteFails {
      response := ClearError(ClearUnavailable);
    } else {
      conn.file.DeleteMessagesOf(sid);
      response := Cleared;
    }
  }
}
