/** The chat widget's side of the stream (public/widget.js): the typing
    indicator, the guard and flow of `sendMessage`, and the loop that
    reassembles Server-Sent Events from the chunks `reader.read()` hands
    over. A read is modelled as the text it decodes to. */
module Widget {
  import opened Common
  import opened EventCodec
  import Chat

  const Sep := "\n\n"
  const DataPrefix := "data: "
  const Apology := "Xin lỗi, có lỗi xảy ra. Vui lòng thử lại sau."
  const SendFailure := "Xin lỗi, có lỗi xảy ra khi gửi tin nhắn. Vui lòng thử lại sau."

  // ---------------------------------------------------------------------
  // buffer.split('\n\n')
  // ---------------------------------------------------------------------

  /** `s` holds no blank-line separator. */
  predicate NoSep(s: string) {
    forall i :: 0 <= i < |s| - 1 ==> !(s[i] == '\n' && s[i + 1] == '\n')
  }

  /** `String.prototype.split` on `"\n\n"`: the pieces between the
      separators, found left to right without overlap. */
  function Split(s: string): (r: seq<string>)
    ensures |r| >= 1
    ensures |r[0]| <= |s| && r[0] == s[..|r[0]|]
    decreases |s|
  {
    if |s| < 2 then [s]
    else if s[0] == '\n' && s[1] == '\n' then [""] + Split(s[2..])
    else
      var r := Split(s[1..]);
      [[s[0]] + r[0]] + r[1..]
  }

  /** Joining the pieces with the separator gives the text back, and no
      piece contains a separator. */
  lemma {:induction false} SplitJoin(s: string)
    ensures Join(Split(s), Sep) == s
    ensures forall i :: 0 <= i < |Split(s)| ==> NoSep(Split(s)[i])
    decreases |s|
  {
    if |s| >= 2 {
      if s[0] == '\n' && s[1] == '\n' {
        SplitJoin(s[2..]);
        SepStep(s, Split(s[2..]));
      } else {
        SplitJoin(s[1..]);
        CharStep(s, Split(s[1..]));
      }
    }
  }

  /** A leading separator adds an empty first piece. */
  lemma SepStep(s: string, r: seq<string>)
    requires |s| >= 2 && s[0] == '\n' && s[1] == '\n' && |r| >= 1
    requires Join(r, Sep) == s[2..] && forall i :: 0 <= i < |r| ==> NoSep(r[i])
    ensures Join([""] + r, Sep) == s
    ensures forall i :: 0 <= i < |[""] + r| ==> NoSep(([""] + r)[i])
  {
    assert ([""] + r)[1..] == r;
    assert s == "" + Sep + s[2..];
    forall i | 0 <= i < |[""] + r| ensures NoSep(([""] + r)[i]) {
      if i > 0 {
        assert ([""] + r)[i] == r[i - 1];
      }
    }
  }

  /** A leading character that does not start a separator joins the first
      piece. */
  lemma CharStep(s: string, r: seq<string>)
    requires |s| >= 2 && !(s[0] == '\n' && s[1] == '\n') && |r| >= 1
    requires |r[0]| <= |s[1..]| && r[0] == s[1..][..|r[0]|]
    requires Join(r, Sep) == s[1..] && forall i :: 0 <= i < |r| ==> NoSep(r[i])
    ensures Join([[s[0]] + r[0]] + r[1..], Sep) == s
    ensures forall i :: 0 <= i < |[[s[0]] + r[0]] + r[1..]| ==> NoSep(([[s[0]] + r[0]] + r[1..])[i])
  {
    var q := [[s[0]] + r[0]] + r[1..];
    JoinConsHead(s[0], r, Sep);
    assert [s[0]] + s[1..] == s;
    HeadNoSep(s, r[0]);
    forall i | 0 <= i < |q| ensures NoSep(q[i]) {
      if i > 0 {
        assert q[i] == r[i];
      }
    }
  }

  /** Putting a character before the first piece puts it before the
      joined text. */
  lemma JoinConsHead(c: char, r: seq<string>, sep: string)
    requires |r| >= 1
    ensures Join([[c] + r[0]] + r[1..], sep) == [c] + Join(r, sep)
  {
    var q := [[c] + r[0]] + r[1..];
    assert q[1..] == r[1..];
    if |r| > 1 {
      var rest := Join(r[1..], sep);
      assert Join(q, sep) == q[0] + sep + rest;
      assert Join(r, sep) == r[0] + sep + rest;
      ConcatAssoc(q[0], sep, rest);
      ConcatAssoc(r[0], sep, rest);
      ConcatAssoc([c], r[0], sep + rest);
    }
  }

  lemma HeadNoSep(s: string, p: string)
    requires |s| >= 2 && !(s[0] == '\n' && s[1] == '\n')
    requires |p| <= |s[1..]| && p == s[1..][..|p|] && NoSep(p)
    ensures NoSep([s[0]] + p)
  {
    var head := [s[0]] + p;
    forall i | 0 <= i < |head| - 1 ensures !(head[i] == '\n' && head[i + 1] == '\n') {
      if i == 0 {
        assert head[1] == s[1];
      } else {
        assert head[i] == p[i - 1] && head[i + 1] == p[i];
      }
    }
  }

  /** A text without a separator is one piece. */
  lemma {:induction false} SplitNoSep(s: string)
    requires NoSep(s)
    ensures Split(s) == [s]
    decreases |s|
  {
    if |s| >= 2 {
      assert NoSep(s[1..]) by {
        forall i | 0 <= i < |s[1..]| - 1 ensures !(s[1..][i] == '\n' && s[1..][i + 1] == '\n') {
          assert s[1..][i] == s[i + 1] && s[1..][i + 1] == s[i + 2];
        }
      }
      SplitNoSep(s[1..]);
      assert [s[0]] + s[1..] == s;
    }
  }

  /** A line free of newlines, then a separator, splits off as one piece. */
  lemma {:induction false} SplitLine(line: string, x: string)
    requires forall i :: 0 <= i < |line| ==> line[i] != '\n'
    ensures Split(line + Sep + x) == [line] + Split(x)
    decreases |line|
  {
    var s := line + Sep + x;
    if |line| == 0 {
      assert s == Sep + x && s[2..] == x;
    } else {
      assert s[1..] == line[1..] + Sep + x;
      SplitLine(line[1..], x);
      assert [line[0]] + line[1..] == line;
    }
  }

  /** The lines of a sequence of events. */
  function Lines(es: seq<ChatEvent>): (r: seq<string>)
    ensures |r| == |es| && forall i :: 0 <= i < |es| ==> r[i] == Line(es[i])
  {
    seq(|es|, i requires 0 <= i < |es| => Line(es[i]))
  }

  /** Complete frames followed by a tail without a separator split into
      the frames' lines and the tail. */
  lemma {:induction false} SplitFrames(es: seq<ChatEvent>, tail: string)
    requires NoSep(tail)
    ensures Split(Frames(es) + tail) == Lines(es) + [tail]
    decreases |es|
  {
    if |es| == 0 {
      assert Frames(es) + tail == tail;
      SplitNoSep(tail);
    } else {
      var l, r := Line(es[0]), Frames(es[1..]);
      assert Frames(es) == l + Sep + r;
      ConcatAssoc(l + Sep, r, tail);
      assert forall i :: 0 <= i < |l| ==> l[i] != '\n' by {
        LineShape(es[0]);
      }
      SplitLine(l, r + tail);
      SplitFrames(es[1..], tail);
      LinesCons(es);
    }
  }

  lemma LinesCons(es: seq<ChatEvent>)
    requires |es| > 0
    ensures Lines(es) == [Line(es[0])] + Lines(es[1..])
  {
    var a, t := Lines(es), Lines(es[1..]);
    var b := [Line(es[0])] + t;
    assert |a| == |b|;
    forall i | 0 <= i < |a| ensures a[i] == b[i] {
      if i > 0 {
        assert b[i] == t[i - 1];
        assert es[1..][i - 1] == es[i];
      }
    }
  }

  /** The body of any non-empty event sequence contains a separator. */
  lemma FramesHaveSep(es: seq<ChatEvent>)
    requires |es| > 0
    ensures !NoSep(Frames(es))
  {
    var f := Frames(es);
    var k := |Line(es[0])|;
    assert f == Line(es[0]) + Sep + Frames(es[1..]);
    assert f[k] == '\n' && f[k + 1] == '\n';
  }

  /** Where a prefix of a body stops: after `m` complete frames and part
      of the next, which carries no separator. */
  lemma {:induction false} PrefixOfFrames(x: string, es: seq<ChatEvent>) returns (m: nat, tail: string)
    requires |x| <= |Frames(es)| && Frames(es)[..|x|] == x
    ensures m <= |es| && x == Frames(es[..m]) + tail && NoSep(tail)
    decreases |es|
  {
    if |es| == 0 {
      m, tail := 0, x;
      assert es[..0] == [];
    } else {
      var f, r := Frame(es[0]), Frames(es[1..]);
      assert Frames(es) == f + r;
      if |x| < |f| {
        PartialFrame(x, es[0], r);
        m, tail := 0, x;
        assert es[..0] == [];
      } else {
        var rest := x[|f|..];
        SplitPrefix(f, r, x);
        var m';
        m', tail := PrefixOfFrames(rest, es[1..]);
        m := m' + 1;
        TakeCons(es, m);
        assert Frames(es[..m]) == f + Frames(es[1..][..m']);
        ConcatAssoc(f, Frames(es[1..][..m']), tail);
      }
    }
  }

  /** A proper prefix of one frame holds no separator. */
  lemma PartialFrame(x: string, e: ChatEvent, r: string)
    requires |x| < |Frame(e)| && (Frame(e) + r)[..|x|] == x
    ensures NoSep(x)
  {
    var l := Line(e);
    assert forall i :: 0 <= i < |l| ==> l[i] != '\n' by {
      LineShape(e);
    }
    forall i | 0 <= i < |x| - 1 ensures !(x[i] == '\n' && x[i + 1] == '\n') {
      assert x[i] == (l + Sep + r)[i] == l[i];
    }
  }

  /** A prefix of `f + r` at least as long as `f` is `f` and a prefix of `r`. */
  lemma SplitPrefix<T>(f: seq<T>, r: seq<T>, x: seq<T>)
    requires |f| <= |x| <= |f + r| && (f + r)[..|x|] == x
    ensures x == f + x[|f|..] && r[..|x| - |f|] == x[|f|..]
  {
    assert x[..|f|] == f;
  }

  lemma TakeCons<T>(s: seq<T>, n: nat)
    requires 0 < n <= |s|
    ensures s[..n] == [s[0]] + s[1..][..n - 1]
  {
  }

  // ---------------------------------------------------------------------
  // The segment loop (public/widget.js:577-605)
  // ---------------------------------------------------------------------

  /** The event a segment carries: trimmed, it must start with `data: `
      and the rest must parse; otherwise it is skipped. */
  function SegmentEvent(piece: string): Option<ChatEvent> {
    var line := Trim(piece);
    if StartsWith(line, DataPrefix) then Decode(line[|DataPrefix|..]) else None
  }

  /** The effect of one event on the bubble text, and whether it ends the
      current batch: a non-empty token is appended, `done` stops, and a
      non-empty error replaces the text with the apology and stops. */
  function Apply(e: ChatEvent, bubble: string): (string, bool) {
    match e
    case Token(t) => (if t != "" then bubble + t else bubble, false)
    case Done => (bubble, true)
    case Error(m) => if m != "" then (Apology, true) else (bubble, false)
  }

  /** The event each segment carries. */
  function Segments(pieces: seq<string>): (r: seq<Option<ChatEvent>>)
    ensures |r| == |pieces| && forall i :: 0 <= i < |pieces| ==> r[i] == SegmentEvent(pieces[i])
  {
    seq(|pieces|, i requires 0 <= i < |pieces| => SegmentEvent(pieces[i]))
  }

  /** The inner `for` over the events of the complete segments of one
      read, left at the first `break`; a segment that carries none is
      skipped. */
  function ProcessEvents(evs: seq<Option<ChatEvent>>, bubble: string): string
    decreases |evs|
  {
    if |evs| == 0 then bubble
    else
      match evs[0]
      case None => ProcessEvents(evs[1..], bubble)
      case Some(e) =>
        var (b, stop) := Apply(e, bubble);
        if stop then b else ProcessEvents(evs[1..], b)
  }

  /** The bubble after the complete segments of one read. */
  function ProcessBatch(pieces: seq<string>, bubble: string): string {
    ProcessEvents(Segments(pieces), bubble)
  }

  datatype Reader = Reader(buffer: string, bubble: string)

  /** One iteration of the `while (true)` loop: the read is appended to
      the buffer, every complete segment is processed, and the trailing
      piece becomes the buffer. */
  function ReadStep(st: Reader, chunk: string): Reader {
    var pieces := Split(st.buffer + chunk);
    Reader(pieces[|pieces| - 1], ProcessBatch(pieces[..|pieces| - 1], st.bubble))
  }

  /** The reader loop over all chunks until the stream ends. */
  function ClientRun(chunks: seq<string>, st: Reader): Reader
    decreases |chunks|
  {
    if |chunks| == 0 then st else ClientRun(chunks[1..], ReadStep(st, chunks[0]))
  }

  /** After a read the buffer holds exactly what follows the last
      separator of the text received so far: it ends that text, carries no
      separator, and what precedes it ends with a separator. */
  lemma ReadStepBuffer(st: Reader, chunk: string)
    ensures var s, b := st.buffer + chunk, ReadStep(st, chunk).buffer;
      && NoSep(b) && EndsWith(s, b)
      && (|b| < |s| ==> EndsWith(s[..|s| - |b|], Sep))
  {
    var s := st.buffer + chunk;
    var pieces := Split(s);
    SplitJoin(s);
    var n := |pieces|;
    var b := pieces[n - 1];
    if n == 1 {
      assert s == b;
    } else {
      var init := pieces[..n - 1];
      JoinSnoc(init, b, Sep);
      assert pieces == init + [b];
      assert s == Join(init, Sep) + Sep + b;
      assert s[..|s| - |b|] == Join(init, Sep) + Sep;
    }
  }

  lemma {:induction false} JoinSnoc(ws: seq<string>, w: string, sep: string)
    requires |ws| > 0
    ensures Join(ws + [w], sep) == Join(ws, sep) + sep + w
    decreases |ws|
  {
    if |ws| == 1 {
      assert (ws + [w])[1..] == [w];
    } else {
      assert (ws + [w])[1..] == ws[1..] + [w];
      JoinSnoc(ws[1..], w, sep);
    }
  }

  /** The inner `for` of `sendMessage` over the complete segments of one
      read. */
  method ProcessSegments(complete: seq<string>, start: string) returns (bubble: string)
    ensures bubble == ProcessBatch(complete, start)
  {
    bubble := start;
    var i := 0;
    while i < |complete|
      invariant 0 <= i <= |complete|
      invariant ProcessEvents(Segments(complete)[i..], bubble) == ProcessBatch(complete, start)
    {
      assert Segments(complete)[i..][1..] == Segments(complete)[i + 1..];
      var data := SegmentEvent(complete[i]);
      if data.Some? {
        match data.value
        case Token(t) =>
          if t != "" {
            bubble := bubble + t;
          }
        case Done =>
          return;
        case Error(m) =>
          if m != "" {
            bubble := Apology;
            return;
          }
      }
      i := i + 1;
    }
  }

  /** The `reader.read()` loop of `sendMessage`, over a bubble whose text
      is `start` when the loop begins: the bubble text and the buffer left
      when the stream ends. */
  method ReadReplies(chunks: seq<string>, start: string) returns (bubble: string, buffer: string)
    ensures Reader(buffer, bubble) == ClientRun(chunks, Reader("", start))
  {
    buffer, bubble := "", start;
    var k := 0;
    while k < |chunks|
      invariant 0 <= k <= |chunks|
      invariant ClientRun(chunks[k..], Reader(buffer, bubble)) == ClientRun(chunks, Reader("", start))
    {
      ghost var next := ReadStep(Reader(buffer, bubble), chunks[k]);
      assert chunks[k..][1..] == chunks[k + 1..];
      assert ClientRun(chunks[k..], Reader(buffer, bubble)) == ClientRun(chunks[k + 1..], next);
      buffer := buffer + chunks[k];
      var lines := Split(buffer);
      bubble := ProcessSegments(lines[..|lines| - 1], bubble);
      buffer := lines[|lines| - 1];
      assert Reader(buffer, bubble) == next;
      k := k + 1;
    }
  }

  // ---------------------------------------------------------------------
  // Reassembly of the server's frames
  // ---------------------------------------------------------------------

  /** The event ends a reply on the client. */
  predicate IsStop(e: ChatEvent) {
    e.Done? || (e.Error? && e.message != "")
  }

  /** Only the last event, if any, ends the reply. */
  predicate StopsOnlyAtEnd(es: seq<ChatEvent>) {
    forall i :: 0 <= i < |es| - 1 ==> !IsStop(es[i])
  }

  /** The events applied in order, up to the first that stops: how the
      bubble would evolve if the whole body arrived in one read. */
  function Replay(es: seq<ChatEvent>, bubble: string): string
    decreases |es|
  {
    if |es| == 0 then bubble
    else
      var (b, stop) := Apply(es[0], bubble);
      if stop then b else Replay(es[1..], b)
  }

  /** Each line of a frame decodes to its event. */
  lemma SegmentOfLine(e: ChatEvent)
    ensures SegmentEvent(Line(e)) == Some(e)
  {
    LineTrimmed(e);
    LineShape(e);
    DecodeEncode(e);
  }

  /** Processing events that are all present is replaying them. */
  lemma {:induction false} ProcessPresent(evs: seq<Option<ChatEvent>>, es: seq<ChatEvent>, bubble: string)
    requires |evs| == |es| && forall i :: 0 <= i < |es| ==> evs[i] == Some(es[i])
    ensures ProcessEvents(evs, bubble) == Replay(es, bubble)
    decreases |es|
  {
    if |es| > 0 {
      var b := Apply(es[0], bubble).0;
      assert forall i :: 0 <= i < |es| - 1 ==> evs[1..][i] == evs[i + 1] && es[1..][i] == es[i + 1];
      ProcessPresent(evs[1..], es[1..], b);
    }
  }

  /** Processing the lines of complete frames is replaying their events. */
  lemma BatchOfLines(es: seq<ChatEvent>, bubble: string)
    ensures ProcessBatch(Lines(es), bubble) == Replay(es, bubble)
  {
    var evs := Segments(Lines(es));
    forall i | 0 <= i < |es| ensures evs[i] == Some(es[i]) {
      SegmentOfLine(es[i]);
    }
    ProcessPresent(evs, es, bubble);
  }

  lemma {:induction false} ReplayAppend(a: seq<ChatEvent>, c: seq<ChatEvent>, bubble: string)
    requires StopsOnlyAtEnd(a + c)
    ensures Replay(a + c, bubble) == Replay(c, Replay(a, bubble))
    decreases |a|
  {
    if |a| == 0 {
      assert a + c == c;
    } else {
      assert (a + c)[0] == a[0];
      var (b, stop) := Apply(a[0], bubble);
      if stop {
        assert IsStop((a + c)[0]);
        assert |a| == 1 && |c| == 0;
        assert a + c == a;
      } else {
        assert (a + c)[1..] == a[1..] + c;
        assert StopsOnlyAtEnd(a[1..] + c) by {
          forall i | 0 <= i < |a[1..] + c| - 1 ensures !IsStop((a[1..] + c)[i]) {
            assert (a[1..] + c)[i] == (a + c)[i + 1];
          }
        }
        ReplayAppend(a[1..], c, b);
      }
    }
  }

  /** However the body is cut into chunks, the reader ends with the bubble
      that replaying the remaining events gives. */
  lemma {:induction false} ClientRunReplay(chunks: seq<string>, es: seq<ChatEvent>, st: Reader)
    requires st.buffer + Concat(chunks) == Frames(es)
    requires NoSep(st.buffer)
    requires StopsOnlyAtEnd(es)
    ensures ClientRun(chunks, st).bubble == Replay(es, st.bubble)
    decreases |chunks|
  {
    if |chunks| == 0 {
      assert st.buffer == Frames(es);
      if |es| > 0 {
        FramesHaveSep(es);
        assert false;
      }
    } else {
      var rest := Concat(chunks[1..]);
      var x := st.buffer + chunks[0];
      assert Frames(es) == x + rest by {
        ConcatAssoc(st.buffer, chunks[0], rest);
      }
      TakePrefix(x, rest);
      var m, tail := PrefixOfFrames(x, es);
      var done, left := es[..m], es[m..];
      var next := ReadStep(st, chunks[0]);
      ReadStepFrames(st, chunks[0], done, tail);
      RestOfFrames(es, m, tail, rest);
      SuffixStopsOnlyAtEnd(es, m);
      ClientRunReplay(chunks[1..], left, next);
      TakeDrop(es, m);
      ReplayAppend(done, left, st.bubble);
    }
  }

  /** A read that completes the frames of `done` and leaves `tail` replays
      `done` and keeps `tail` as the buffer. */
  lemma ReadStepFrames(st: Reader, chunk: string, done: seq<ChatEvent>, tail: string)
    requires st.buffer + chunk == Frames(done) + tail && NoSep(tail)
    ensures ReadStep(st, chunk) == Reader(tail, Replay(done, st.bubble))
  {
    var pieces := Split(st.buffer + chunk);
    SplitFrames(done, tail);
    assert pieces == Lines(done) + [tail];
    TakePrefix(Lines(done), [tail]);
    BatchOfLines(done, st.bubble);
  }

  /** What follows the first `m` frames of a body is the body of the
      remaining events. */
  lemma RestOfFrames(es: seq<ChatEvent>, m: nat, tail: string, rest: string)
    requires m <= |es| && Frames(es[..m]) + tail + rest == Frames(es)
    ensures tail + rest == Frames(es[m..])
  {
    var a, b := es[..m], es[m..];
    assert Frames(es) == Frames(a) + Frames(b) by {
      TakeDrop(es, m);
      FramesAppend(a, b);
    }
    ConcatAssoc(Frames(a), tail, rest);
    CancelPrefix(Frames(a), tail + rest, Frames(b));
  }

  lemma TakeDrop<T>(s: seq<T>, m: nat)
    requires m <= |s|
    ensures s[..m] + s[m..] == s
  {
  }

  lemma TakePrefix<T>(x: seq<T>, y: seq<T>)
    ensures (x + y)[..|x|] == x
  {
  }

  lemma ConcatAssoc<T>(x: seq<T>, y: seq<T>, z: seq<T>)
    ensures x + y + z == x + (y + z)
  {
  }

  lemma CancelPrefix<T>(p: seq<T>, x: seq<T>, y: seq<T>)
    requires p + x == p + y
    ensures x == y
  {
    assert x == (p + x)[|p|..];
    assert y == (p + y)[|p|..];
  }

  lemma SuffixStopsOnlyAtEnd(es: seq<ChatEvent>, m: nat)
    requires m <= |es| && StopsOnlyAtEnd(es)
    ensures StopsOnlyAtEnd(es[m..])
  {
    forall i | 0 <= i < |es[m..]| - 1 ensures !IsStop(es[m..][i]) {
      assert es[m..][i] == es[m + i];
    }
  }

  /** Replaying tokens then a terminal event: the tokens' text, or the
      apology after a non-empty error. */
  lemma {:induction false} ReplayTokens(es: seq<ChatEvent>, last: ChatEvent, bubble: string)
    requires forall i :: 0 <= i < |es| ==> es[i].Token? && es[i].text != ""
    requires last.Done? || (last.Error? && last.message != "")
    ensures Replay(es + [last], bubble) == if last.Done? then bubble + Chat.TokenText(es) else Apology
    decreases |es|
  {
    if |es| == 0 {
      assert es + [last] == [last];
    } else {
      assert (es + [last])[1..] == es[1..] + [last];
      ReplayTokens(es[1..], last, bubble + es[0].text);
    }
  }

  /** The round trip from /sse to the bubble: whatever the cut into chunks,
      a completed reply shows the concatenation of the model's fragments
      and a failed one shows the apology. */
  lemma StreamRoundTrip(fragments: seq<string>, modelFails: bool, chunks: seq<string>)
    requires Concat(chunks) == Frames(Chat.StreamEvents(fragments, modelFails))
    ensures ClientRun(chunks, Reader("", "")).bubble == if modelFails then Apology else Concat(fragments)
  {
    var es := Chat.StreamEvents(fragments, modelFails);
    Chat.StreamEventsShape(fragments, modelFails);
    var tokens := Chat.TokenEvents(fragments);
    var last := es[|es| - 1];
    assert es == tokens + [last];
    assert StopsOnlyAtEnd(es);
    assert "" + Concat(chunks) == Concat(chunks);
    ClientRunReplay(chunks, es, Reader("", ""));
    ReplayTokens(tokens, last, "");
    Chat.TokenTextOfFragments(fragments);
  }

  /** A body that is one error frame, as /sse sends without a database,
      shows the apology however it is cut. */
  lemma ErrorFrameShowsApology(message: string, chunks: seq<string>)
    requires message != "" && Concat(chunks) == Frames([Error(message)])
    ensures ClientRun(chunks, Reader("", "")).bubble == Apology
  {
    var es := [Error(message)];
    assert "" + Concat(chunks) == Concat(chunks);
    ClientRunReplay(chunks, es, Reader("", ""));
    ReplayTokens([], es[0], "");
    assert [] + [es[0]] == es;
  }

  lemma SegmentsCons(piece: string, rest: seq<string>)
    ensures Segments([piece] + rest) == [SegmentEvent(piece)] + Segments(rest)
  {
    var l, r := Segments([piece] + rest), [SegmentEvent(piece)] + Segments(rest);
    forall i | 0 <= i < |l| ensures l[i] == r[i] {
      if i > 0 {
        assert ([piece] + rest)[i] == rest[i - 1];
      }
    }
  }

  /** Segments without the prefix, or whose payload does not parse, leave
      the bubble and the rest of the batch alone. */
  lemma SkippedSegment(piece: string, rest: seq<string>, bubble: string)
    requires !StartsWith(Trim(piece), DataPrefix) || Decode(Trim(piece)[|DataPrefix|..]).None?
    ensures ProcessBatch([piece] + rest, bubble) == ProcessBatch(rest, bubble)
  {
    SegmentsCons(piece, rest);
    assert ([SegmentEvent(piece)] + Segments(rest))[1..] == Segments(rest);
  }

  /** A `done` or error segment ends the batch: what follows it in the
      same read is dropped. */
  lemma StopSegment(e: ChatEvent, rest: seq<string>, bubble: string)
    requires IsStop(e)
    ensures ProcessBatch([Line(e)] + rest, bubble) == (if e.Done? then bubble else Apology)
  {
    SegmentOfLine(e);
    SegmentsCons(Line(e), rest);
  }

  // ---------------------------------------------------------------------
  // The widget's state (public/widget.js:489-525, 533-613)
  // ---------------------------------------------------------------------

  datatype Bubble = Bubble(role: string, text: string)

  class ChatWidget {
    var input: string
    var isTyping: bool
    /** How many `gscb-typing` elements the message list holds. */
    var indicators: nat
    var bubbles: seq<Bubble>

    /** One typing indicator is shown exactly while `isTyping` is set. */
    predicate Valid()
      reads this
    {
      indicators == if isTyping then 1 else 0
    }

    constructor ()
      ensures Valid() && input == "" && !isTyping && bubbles == []
    {
      input, isTyping, indicators, bubbles := "", false, 0, [];
    }

    /** The visitor types into the input field. */
    method Type(text: string)
      modifies this
      ensures input == text
      ensures isTyping == old(isTyping) && indicators == old(indicators) && bubbles == old(bubbles)
    {
      input := text;
    }

    /** `showTyping()`: does nothing while typing; otherwise sets the flag
        and adds the indicator. */
    method ShowTyping()
      modifies this
      ensures isTyping
      ensures indicators == if old(isTyping) then old(indicators) else old(indicators) + 1
      ensures old(Valid()) ==> Valid()
      ensures input == old(input) && bubbles == old(bubbles)
    {
      if isTyping {
        return;
      }
      isTyping := true;
      indicators := indicators + 1;
    }

    /** `hideTyping()`: removes the indicator if there is one and always
        clears the flag. */
    method HideTyping()
      modifies this
      ensures !isTyping
      ensures indicators == if old(indicators) > 0 then old(indicators) - 1 else 0
      ensures old(Valid()) ==> Valid()
      ensures input == old(input) && bubbles == old(bubbles)
    {
      if indicators > 0 {
        indicators := indicators - 1;
      }
      isTyping := false;
    }

    /** `sendMessage()` up to the request: ignored for a blank input or
        while a reply is awaited; otherwise the trimmed text is sent,
        shown as the user's bubble, and the indicator appears. */
    method SendMessage() returns (sent: Option<string>)
      requires Valid()
      modifies this
      ensures Valid()
      ensures sent.Some? <==> Trim(old(input)) != "" && !old(isTyping)
      ensures sent.None? ==>
        input == old(input) && isTyping == old(isTyping) && indicators == old(indicators) && bubbles == old(bubbles)
      ensures sent.Some? ==>
        && sent.value == Trim(old(input)) && input == "" && isTyping
        && bubbles == old(bubbles) + [Bubble("user", sent.value)]
    {
      var message := Trim(input);
      if message == "" || isTyping {
        return None;
      }
      input := "";
      bubbles := bubbles + [Bubble("user", message)];
      ShowTyping();
      sent := Some(message);
    }

    /** The awaited `fetch` settles: the indicator goes and, for an ok
        response, an empty assistant bubble is added for the stream, whose
        position is returned; a refused request or a status that is not ok
        adds the failure notice instead. */
    method ReceiveResponse(ok: bool) returns (slot: Option<nat>)
      requires Valid()
      modifies this
      ensures Valid() && !isTyping && input == old(input)
      ensures ok ==> slot == Some(|old(bubbles)|) && bubbles == old(bubbles) + [Bubble("assistant", "")]
      ensures !ok ==> slot.None? && bubbles == old(bubbles) + [Bubble("assistant", SendFailure)]
    {
      HideTyping();
      if ok {
        slot := Some(|bubbles|);
        bubbles := bubbles + [Bubble("assistant", "")];
      } else {
        slot := None;
        bubbles := bubbles + [Bubble("assistant", SendFailure)];
      }
    }

    /** The read loop writing into the bubble at `slot`, which only this
        stream writes; when a read rejects after `chunks`, the `catch`
        hides the indicator (whichever send showed it) and adds the
        failure notice. */
    method StreamInto(slot: nat, chunks: seq<string>, readFails: bool)
      requires Valid() && slot < |bubbles|
      modifies this
      ensures Valid() && input == old(input)
      ensures isTyping == (old(isTyping) && !readFails)
      ensures |bubbles| == |old(bubbles)| + (if readFails then 1 else 0)
      ensures bubbles[slot] == Bubble(old(bubbles)[slot].role, ClientRun(chunks, Reader("", old(bubbles)[slot].text)).bubble)
      ensures forall i :: 0 <= i < |old(bubbles)| && i != slot ==> bubbles[i] == old(bubbles)[i]
      ensures readFails ==> bubbles[|old(bubbles)|] == Bubble("assistant", SendFailure)
    {
      var text, _ := ReadReplies(chunks, bubbles[slot].text);
      bubbles := bubbles[slot := Bubble(bubbles[slot].role, text)];
      if readFails {
        HideTyping();
        bubbles := bubbles + [Bubble("assistant", SendFailure)];
      }
    }
  }

  /** A complete exchange: the user's bubble, then the assistant's bubble
      holding the streamed reply, ending with no indicator. */
  method Exchange(w: ChatWidget, text: string, chunks: seq<string>) returns (sent: Option<string>)
    requires w.Valid() && !w.isTyping
    modifies w
    ensures w.Valid() && !w.isTyping
    ensures sent.Some? <==> Trim(text) != ""
    ensures sent.Some? ==>
      w.bubbles == old(w.bubbles) + [Bubble("user", sent.value), Bubble("assistant", ClientRun(chunks, Reader("", "")).bubble)]
  {
    w.Type(text);
    sent := w.SendMessage();
    if sent.None? {
      return;
    }
    var slot := w.ReceiveResponse(true);
    w.StreamInto(slot.value, chunks, false);
  }

  /** `hideTyping()` runs before the stream is read, so Enter sends a
      second message while the first reply is still streaming; each reply
      then fills its own bubble. */
  method SecondSendWhileStreaming(w: ChatWidget, first: string, second: string, chunks1: seq<string>, chunks2: seq<string>)
    returns (sent: Option<string>)
    requires w.Valid() && !w.isTyping && Trim(first) != "" && Trim(second) != ""
    modifies w
    ensures sent == Some(Trim(second))
    ensures |w.bubbles| == |old(w.bubbles)| + 4
    ensures w.bubbles[|old(w.bubbles)| + 1] == Bubble("assistant", ClientRun(chunks1, Reader("", "")).bubble)
    ensures w.bubbles[|old(w.bubbles)| + 3] == Bubble("assistant", ClientRun(chunks2, Reader("", "")).bubble)
  {
    w.Type(first);
    var s1 := w.SendMessage();
    var slot1 := w.ReceiveResponse(true);
    w.Type(second);
    sent := w.SendMessage();
    var slot2 := w.ReceiveResponse(true);
    w.StreamInto(slot2.value, chunks2, false);
    w.StreamInto(slot1.value, chunks1, false);
  }
}
