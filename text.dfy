/** src/utils/text.js: the word-window chunker used at ingestion, the
    lexical chunk search used by the chat route, and the two MIME tables. */
module TextUtil {
  import opened Common
  import opened Sorting
  import opened Db

  // ---------------------------------------------------------------------
  // Words: `input.split(/\s+/).filter(word => word.length > 0)`
  // ---------------------------------------------------------------------

  /** Number of white-space characters at the start of `s`. */
  function LeadingSpaces(s: string): (k: nat)
    ensures k <= |s| && (k == |s| || !IsSpace(s[k]))
    decreases |s|
  {
    if |s| > 0 && IsSpace(s[0]) then 1 + LeadingSpaces(s[1..]) else 0
  }

  /** Length of the run of non-space characters that starts `t`. */
  function WordLen(t: string): (k: nat)
    ensures k <= |t| && (k == |t| || IsSpace(t[k]))
    ensures |t| > 0 && !IsSpace(t[0]) ==> k > 0
    decreases |t|
  {
    if |t| == 0 || IsSpace(t[0]) then 0 else 1 + WordLen(t[1..])
  }

  /** The maximal runs of non-space characters of `s`, in order. */
  function Words(s: string): seq<string>
    decreases |s|
  {
    var a := LeadingSpaces(s);
    if a == |s| then []
    else
      var t := s[a..];
      var k := WordLen(t);
      [t[..k]] + Words(t[k..])
  }

  /** Every word is non-empty and holds no white space. */
  predicate WellFormedWords(ws: seq<string>) {
    forall i :: 0 <= i < |ws| ==> ws[i] != [] && NoSpace(ws[i])
  }

  lemma {:induction false} LeadingSpacesBlank(s: string)
    ensures IsBlank(s[..LeadingSpaces(s)])
    decreases |s|
  {
    if |s| > 0 && IsSpace(s[0]) {
      LeadingSpacesBlank(s[1..]);
      var k := LeadingSpaces(s[1..]);
      var p := s[..k + 1];
      forall i | 0 <= i < |p| ensures IsSpace(p[i]) {
        if i > 0 {
          assert p[i] == s[1..][..k][i - 1];
        }
      }
    }
  }

  lemma {:induction false} WordLenNoSpace(t: string)
    ensures NoSpace(t[..WordLen(t)])
    decreases |t|
  {
    if |t| > 0 && !IsSpace(t[0]) {
      WordLenNoSpace(t[1..]);
      var k := WordLen(t[1..]);
      var p := t[..k + 1];
      forall i | 0 <= i < |p| ensures !IsSpace(p[i]) {
        if i > 0 {
          assert p[i] == t[1..][..k][i - 1];
        }
      }
    }
  }

  lemma {:induction false} WordsWellFormed(s: string)
    ensures WellFormedWords(Words(s))
    decreases |s|
  {
    var a := LeadingSpaces(s);
    if a < |s| {
      var t := s[a..];
      var k := WordLen(t);
      WordLenNoSpace(t);
      var rest := Words(t[k..]);
      WordsWellFormed(t[k..]);
      assert Words(s) == [t[..k]] + rest;
      WellFormedCons(t[..k], rest);
    }
  }

  lemma WellFormedCons(w: string, rest: seq<string>)
    requires w != [] && NoSpace(w) && WellFormedWords(rest)
    ensures WellFormedWords([w] + rest)
  {
    var ws := [w] + rest;
    forall i | 0 < i < |ws| ensures ws[i] != [] && NoSpace(ws[i]) {
      assert ws[i] == rest[i - 1];
    }
  }

  /** Text that is empty or all white space has no words, and only such
      text has none. */
  lemma WordsEmptyIffBlank(s: string)
    ensures Words(s) == [] <==> IsBlank(s)
  {
    LeadingSpacesBlank(s);
    assert LeadingSpaces(s) == |s| ==> s[..LeadingSpaces(s)] == s;
  }

  /** A leading white-space character does not change the words. */
  lemma WordsSkipSpace(c: char, s: string)
    requires IsSpace(c)
    ensures Words([c] + s) == Words(s)
  {
    var cs := [c] + s;
    assert cs[1..] == s;
    var a := LeadingSpaces(s);
    assert LeadingSpaces(cs) == a + 1;
    assert cs[a + 1..] == s[a..];
  }

  lemma {:induction false} WordLenOf(w: string, rest: string)
    requires NoSpace(w) && (rest == [] || IsSpace(rest[0]))
    ensures WordLen(w + rest) == |w|
    decreases |w|
  {
    if |w| == 0 {
      assert w + rest == rest;
    } else {
      assert (w + rest)[1..] == w[1..] + rest;
      WordLenOf(w[1..], rest);
    }
  }

  /** A word followed by nothing or by white space comes out first. */
  lemma WordsCons(w: string, rest: string)
    requires w != [] && NoSpace(w) && (rest == [] || IsSpace(rest[0]))
    ensures Words(w + rest) == [w] + Words(rest)
  {
    var s := w + rest;
    assert LeadingSpaces(s) == 0;
    assert s[0..] == s;
    WordLenOf(w, rest);
    assert s[..|w|] == w;
    assert s[|w|..] == rest;
  }

  lemma {:induction false} JoinFirst(ws: seq<string>, sep: string)
    requires |ws| > 0 && ws[0] != []
    ensures |Join(ws, sep)| > 0 && Join(ws, sep)[0] == ws[0][0]
  {
  }

  lemma {:induction false} JoinLast(ws: seq<string>, sep: string)
    requires |ws| > 0 && ws[|ws| - 1] != []
    ensures |Join(ws, sep)| > 0
    ensures Join(ws, sep)[|Join(ws, sep)| - 1] == ws[|ws| - 1][|ws[|ws| - 1]| - 1]
    decreases |ws|
  {
    if |ws| > 1 {
      JoinLast(ws[1..], sep);
    }
  }

  /** Splitting words joined by single spaces gives the same words back. */
  lemma {:induction false} WordsOfJoin(ws: seq<string>)
    requires WellFormedWords(ws)
    ensures Words(Join(ws, " ")) == ws
    decreases |ws|
  {
    if |ws| == 1 {
      assert ws[0] != [] && NoSpace(ws[0]);
      WordsCons(ws[0], []);
      assert ws[0] + [] == ws[0];
      assert Words([]) == [];
    } else if |ws| > 1 {
      var w := ws[0];
      var tail := ws[1..];
      assert w != [] && NoSpace(w);
      WellFormedTail(ws);
      var rest := Join(tail, " ");
      JoinHead(ws, " ");
      assert Words(Join(ws, " ")) == [w] + Words(rest) by {
        WordsCons(w, [' '] + rest);
        WordsSkipSpace(' ', rest);
      }
      WordsOfJoin(tail);
      assert ws == [w] + tail;
    }
  }

  lemma WellFormedTail(ws: seq<string>)
    requires WellFormedWords(ws) && |ws| > 0
    ensures WellFormedWords(ws[1..])
  {
    var tail := ws[1..];
    forall i | 0 <= i < |tail| ensures tail[i] != [] && NoSpace(tail[i]) {
      assert tail[i] == ws[i + 1];
    }
  }

  /** More than one word joined: the first word, the separator, the rest. */
  lemma JoinHead(ws: seq<string>, sep: string)
    requires |ws| > 1
    ensures Join(ws, sep) == ws[0] + (sep + Join(ws[1..], sep))
  {
    var rest := Join(ws[1..], sep);
    assert ws[0] + sep + rest == ws[0] + (sep + rest);
  }

  /** A window of words, joined, is non-empty and already trimmed. */
  lemma JoinTrimmed(ws: seq<string>)
    requires WellFormedWords(ws) && |ws| > 0
    ensures Join(ws, " ") != [] && Trim(Join(ws, " ")) == Join(ws, " ")
  {
    JoinFirst(ws, " ");
    JoinLast(ws, " ");
    TrimUnchanged(Join(ws, " "));
  }

  // ---------------------------------------------------------------------
  // chunkText (src/utils/text.js:4-20)
  // ---------------------------------------------------------------------

  /** The `options` argument of `chunkText`; `None` is a missing field. */
  datatype ChunkOptions = ChunkOptions(maxTokens: Option<int>, overlap: Option<int>)

  /** `options.maxTokens || 500`: a missing or zero value becomes 500. */
  function MaxTokens(o: ChunkOptions): int {
    if o.maxTokens.None? || o.maxTokens.value == 0 then 500 else o.maxTokens.value
  }

  /** `options.overlap || 50`: a missing or zero value becomes 50. */
  function Overlap(o: ChunkOptions): int {
    if o.overlap.None? || o.overlap.value == 0 then 50 else o.overlap.value
  }

  /** The words `start .. start + maxTokens` (fewer at the end), as
      `words.slice(start, start + maxTokens)`. */
  function Window(words: seq<string>, start: nat, maxTokens: nat): seq<string>
    requires start <= |words|
  {
    words[start..Min(start + maxTokens, |words|)]
  }

  lemma WindowWellFormed(words: seq<string>, start: nat, maxTokens: nat)
    requires WellFormedWords(words) && start < |words| && 0 < maxTokens
    ensures WellFormedWords(Window(words, start, maxTokens))
    ensures 1 <= |Window(words, start, maxTokens)| <= maxTokens
  {
    var w := Window(words, start, maxTokens);
    forall j | 0 <= j < |w| ensures w[j] != [] && NoSpace(w[j]) {
      assert w[j] == words[start + j];
    }
  }

  lemma WindowAt(words: seq<string>, start: nat, maxTokens: nat, j: nat)
    requires start <= j < start + maxTokens && j < |words|
    ensures j - start < |Window(words, start, maxTokens)|
    ensures Window(words, start, maxTokens)[j - start] == words[j]
  {
  }

  lemma WindowsOverlap(words: seq<string>, start: nat, maxTokens: nat, stride: nat)
    requires start + maxTokens <= |words| && stride <= maxTokens
    ensures |Window(words, start, maxTokens)| == maxTokens
    ensures maxTokens - stride <= |Window(words, start + stride, maxTokens)|
    ensures Window(words, start, maxTokens)[stride..] == Window(words, start + stride, maxTokens)[..maxTokens - stride]
  {
    var w0 := Window(words, start, maxTokens);
    var w1 := Window(words, start + stride, maxTokens);
    assert w0 == words[start..start + maxTokens];
    forall i | 0 <= i < maxTokens - stride ensures w0[stride..][i] == w1[..maxTokens - stride][i] {
      assert w0[stride..][i] == words[start + stride + i];
    }
  }

  /** The chunks emitted by the loop from word position `i` on, with window
      `maxTokens` and step `stride`. */
  function ChunksFrom(words: seq<string>, i: nat, maxTokens: nat, stride: nat): seq<string>
    requires stride > 0
    decreases |words| - i
  {
    if i >= |words| then []
    else [Join(Window(words, i, maxTokens), " ")] + ChunksFrom(words, i + stride, maxTokens, stride)
  }

  function Chunks(words: seq<string>, maxTokens: nat, stride: nat): seq<string>
    requires stride > 0
  {
    ChunksFrom(words, 0, maxTokens, stride)
  }

  /** `chunkText(input, options)`: split the input into words, then slide
      the window over them. The loop only ends when the step
      `maxTokens - overlap` is positive, which the precondition demands;
      a negative `maxTokens` (a slice counted from the end) is excluded. */
  method ChunkText(input: string, options: ChunkOptions) returns (chunks: seq<string>)
    requires 0 < MaxTokens(options) && Overlap(options) < MaxTokens(options)
    ensures chunks == Chunks(Words(input), MaxTokens(options), MaxTokens(options) - Overlap(options))
  {
    var maxTokens := MaxTokens(options);
    var overlap := Overlap(options);
    var words := Words(input);
    WordsWellFormed(input);
    chunks := SlideWindow(words, maxTokens, overlap);
  }

  /** The loop of `chunkText`: every `maxTokens - overlap` words, the next
      `maxTokens` words joined by spaces, kept when it trims to something. */
  method SlideWindow(words: seq<string>, maxTokens: int, overlap: int) returns (chunks: seq<string>)
    requires WellFormedWords(words) && 0 < maxTokens && overlap < maxTokens
    ensures chunks == Chunks(words, maxTokens, maxTokens - overlap)
  {
    var stride := maxTokens - overlap;
    ghost var all := Chunks(words, maxTokens, stride);
    chunks := [];
    var i := 0;
    while i < |words|
      invariant chunks + ChunksFrom(words, i, maxTokens, stride) == all
      decreases |words| - i
    {
      var chunk := Join(Window(words, i, maxTokens), " ");
      ChunkStep(words, chunks, i, maxTokens, stride, chunk, all);
      if Trim(chunk) != "" {
        chunks := chunks + [Trim(chunk)];
      }
      i := i + stride;
    }
  }

  /** One turn of the loop: the next window, joined, is already trimmed and
      non-empty, so it is kept as it is and the invariant carries over. */
  lemma ChunkStep(words: seq<string>, chunks: seq<string>, i: nat, maxTokens: nat, stride: nat,
                  chunk: string, all: seq<string>)
    requires 0 < maxTokens && 0 < stride && i < |words| && WellFormedWords(words)
    requires chunk == Join(Window(words, i, maxTokens), " ")
    requires chunks + ChunksFrom(words, i, maxTokens, stride) == all
    ensures chunk != "" && Trim(chunk) == chunk
    ensures chunks + [chunk] + ChunksFrom(words, i + stride, maxTokens, stride) == all
  {
    WindowWellFormed(words, i, maxTokens);
    JoinTrimmed(Window(words, i, maxTokens));
    var rest := ChunksFrom(words, i + stride, maxTokens, stride);
    assert ChunksFrom(words, i, maxTokens, stride) == [chunk] + rest;
    assert chunks + [chunk] + rest == chunks + ([chunk] + rest);
  }

  /** The number of chunks is the ceiling of (words left) / stride. */
  lemma {:induction false} ChunksFromCount(words: seq<string>, i: nat, maxTokens: nat, stride: nat)
    requires stride > 0
    ensures i >= |words| ==> |ChunksFrom(words, i, maxTokens, stride)| == 0
    ensures i < |words| ==>
      (|ChunksFrom(words, i, maxTokens, stride)| - 1) * stride < |words| - i
      <= |ChunksFrom(words, i, maxTokens, stride)| * stride
    decreases |words| - i
  {
    if i < |words| {
      ChunksFromCount(words, i + stride, maxTokens, stride);
      var c' := |ChunksFrom(words, i + stride, maxTokens, stride)|;
      assert |ChunksFrom(words, i, maxTokens, stride)| == c' + 1;
      assert (c' + 1) * stride == c' * stride + stride;
      assert (c' - 1) * stride == c' * stride - stride;
    }
  }

  lemma {:induction false} ChunksFromAt(words: seq<string>, i: nat, maxTokens: nat, stride: nat, k: nat)
    requires stride > 0 && k < |ChunksFrom(words, i, maxTokens, stride)|
    ensures i + k * stride < |words|
    ensures ChunksFrom(words, i, maxTokens, stride)[k]
         == Join(Window(words, i + k * stride, maxTokens), " ")
    decreases k
  {
    if k > 0 {
      ChunksFromAt(words, i + stride, maxTokens, stride, k - 1);
      assert i + stride + (k - 1) * stride == i + k * stride;
    }
  }

  /** For n > 0 words there are ceil(n / stride) chunks; none for no words. */
  lemma NumberOfChunks(words: seq<string>, maxTokens: nat, stride: nat)
    requires stride > 0
    ensures |words| == 0 <==> Chunks(words, maxTokens, stride) == []
    ensures |words| > 0 ==>
      (|Chunks(words, maxTokens, stride)| - 1) * stride < |words| <= |Chunks(words, maxTokens, stride)| * stride
  {
    ChunksFromCount(words, 0, maxTokens, stride);
  }

  /** Empty or all-white-space input yields no chunks, and only such input. */
  lemma ChunkTextBlank(input: string, maxTokens: nat, stride: nat)
    requires stride > 0
    ensures Chunks(Words(input), maxTokens, stride) == [] <==> IsBlank(input)
  {
    WordsEmptyIffBlank(input);
    NumberOfChunks(Words(input), maxTokens, stride);
  }

  /** Chunk k is the window of words starting at k*stride, joined by
      single spaces. */
  lemma ChunkAt(words: seq<string>, maxTokens: nat, stride: nat, k: nat)
    requires 0 < stride && k < |Chunks(words, maxTokens, stride)|
    ensures k * stride < |words|
    ensures Chunks(words, maxTokens, stride)[k] == Join(Window(words, k * stride, maxTokens), " ")
  {
    ChunksFromAt(words, 0, maxTokens, stride, k);
  }

  /** Splitting chunk k again gives back exactly the words
      k*stride .. min(k*stride + maxTokens, n) of the input: between 1 and
      maxTokens of them. */
  lemma ChunkWords(words: seq<string>, maxTokens: nat, stride: nat, k: nat)
    requires WellFormedWords(words) && 0 < stride && 0 < maxTokens
    requires k < |Chunks(words, maxTokens, stride)|
    ensures k * stride < |words|
    ensures Words(Chunks(words, maxTokens, stride)[k]) == Window(words, k * stride, maxTokens)
    ensures 1 <= |Words(Chunks(words, maxTokens, stride)[k])| <= maxTokens
  {
    ChunkAt(words, maxTokens, stride, k);
    WindowWellFormed(words, k * stride, maxTokens);
    WordsOfJoin(Window(words, k * stride, maxTokens));
  }

  lemma {:induction false} ChunksFromCover(words: seq<string>, i: nat, maxTokens: nat, stride: nat, j: nat)
    returns (k: nat)
    requires 0 < stride <= maxTokens && i <= j < |words|
    ensures k < |ChunksFrom(words, i, maxTokens, stride)|
    ensures i + k * stride <= j < i + k * stride + maxTokens
    decreases |words| - i
  {
    if j < i + maxTokens {
      k := 0;
    } else {
      var k' := ChunksFromCover(words, i + stride, maxTokens, stride, j);
      k := k' + 1;
      assert i + k * stride == i + stride + k' * stride;
    }
  }

  lemma ProductNat(a: nat, b: nat)
    ensures a * b >= 0
  {
  }

  lemma ProductNext(a: nat, b: nat)
    ensures (a + 1) * b == a * b + b
  {
  }

  /** No gaps: when the overlap is not negative (stride <= maxTokens), every
      word of the input lies in the window of some chunk, at the position
      its index says. */
  lemma ChunksCover(words: seq<string>, maxTokens: nat, stride: nat, j: nat) returns (k: nat)
    requires 0 < stride <= maxTokens && j < |words|
    ensures k < |Chunks(words, maxTokens, stride)|
    ensures k * stride <= j < k * stride + maxTokens
    ensures Chunks(words, maxTokens, stride)[k] == Join(Window(words, k * stride, maxTokens), " ")
    ensures j - k * stride < |Window(words, k * stride, maxTokens)|
    ensures Window(words, k * stride, maxTokens)[j - k * stride] == words[j]
  {
    k := ChunksFromCover(words, 0, maxTokens, stride, j);
    ChunkAt(words, maxTokens, stride, k);
    ProductNat(k, stride);
    WindowAt(words, k * stride, maxTokens, j);
  }

  /** A full chunk's last `maxTokens - stride` words (the overlap) are the
      first words of the next chunk. */
  lemma ChunksOverlap(words: seq<string>, maxTokens: nat, stride: nat, k: nat)
    requires 0 < stride <= maxTokens
    requires k + 1 < |Chunks(words, maxTokens, stride)| && k * stride + maxTokens <= |words|
    ensures Chunks(words, maxTokens, stride)[k] == Join(Window(words, k * stride, maxTokens), " ")
    ensures Chunks(words, maxTokens, stride)[k + 1] == Join(Window(words, k * stride + stride, maxTokens), " ")
    ensures |Window(words, k * stride, maxTokens)| == maxTokens
    ensures maxTokens - stride <= |Window(words, k * stride + stride, maxTokens)|
    ensures Window(words, k * stride, maxTokens)[stride..]
         == Window(words, k * stride + stride, maxTokens)[..maxTokens - stride]
  {
    ProductNat(k, stride);
    ProductNext(k, stride);
    ChunkAt(words, maxTokens, stride, k);
    ChunkAt(words, maxTokens, stride, k + 1);
    WindowsOverlap(words, k * stride, maxTokens, stride);
  }

  // ---------------------------------------------------------------------
  // searchSimilarChunks (src/utils/text.js:46-96)
  // ---------------------------------------------------------------------

  /** One element of the search result. */
  datatype ChunkHit = ChunkHit(content: string, chunkIndex: int, filename: string, totalChunks: nat)

  function HitIndex(h: ChunkHit): int { h.chunkIndex }

  /** `.filter(term => term.length > 2)`. */
  function LongTerms(ws: seq<string>): (r: seq<string>)
    ensures forall t :: t in r <==> t in ws && |t| > 2
    decreases |ws|
  {
    if |ws| == 0 then []
    else if |ws[0]| > 2 then [ws[0]] + LongTerms(ws[1..])
    else LongTerms(ws[1..])
  }

  /** The search terms of a query: its lower-cased words longer than two
      characters. They only decide whether the query runs at all. */
  function SearchTerms(query: string): seq<string> {
    LongTerms(Words(Lower(query)))
  }

  /** The `documents` row a chunk joins with, when there is one. */
  function FindDocument(ds: seq<DocumentRow>, id: string): (r: Option<DocumentRow>)
    ensures r.Some? ==> r.value in ds && r.value.id == id
    ensures r.None? <==> id !in DocumentIds(ds)
    decreases |ds|
  {
    if |ds| == 0 then None
    else if ds[0].id == id then Some(ds[0])
    else
      var r := FindDocument(ds[1..], id);
      assert ds == [ds[0]] + ds[1..];
      r
  }

  /** `WHERE LOWER(dc.content) LIKE '%needle%'`, with the needle read as a
      plain substring. */
  predicate ChunkMatches(c: ChunkRow, needle: string) {
    Contains(Lower(c.content), needle)
  }

  /** The projected row for chunk `c` joined with document `d`. */
  function HitOf(t: Tables, c: ChunkRow, d: DocumentRow): ChunkHit {
    ChunkHit(c.content, c.chunkIndex, d.originalFilename, ChunkCount(t.chunks, c.documentId))
  }

  /** `h` is the projection of some matching chunk row of `t` joined with
      its document. */
  ghost predicate IsHitFor(t: Tables, needle: string, h: ChunkHit) {
    exists c, d :: c in t.chunks && d in t.documents && d.id == c.documentId
      && ChunkMatches(c, needle) && h == HitOf(t, c, d)
  }

  /** The inner join of the chunks `cs` with `t.documents`, filtered. */
  function MatchingHits(t: Tables, cs: seq<ChunkRow>, needle: string): (r: seq<ChunkHit>)
    requires forall c :: c in cs ==> c in t.chunks
    ensures forall h :: h in r ==> IsHitFor(t, needle, h)
    ensures forall c :: (c in cs && ChunkMatches(c, needle) && FindDocument(t.documents, c.documentId).Some?
      ==> HitOf(t, c, FindDocument(t.documents, c.documentId).value) in r)
    decreases |cs|
  {
    if |cs| == 0 then []
    else
      var rest := MatchingHits(t, cs[1..], needle);
      var c := cs[0];
      assert cs == [c] + cs[1..];
      match FindDocument(t.documents, c.documentId)
      case Some(d) => if ChunkMatches(c, needle) then [HitOf(t, c, d)] + rest else rest
      case None => rest
  }

  /** A hit carries the content of a chunk that matches the needle. */
  lemma HitMatches(t: Tables, needle: string, h: ChunkHit)
    requires IsHitFor(t, needle, h)
    ensures Contains(Lower(h.content), needle)
  {
    var c, d :| c in t.chunks && d in t.documents && d.id == c.documentId
      && ChunkMatches(c, needle) && h == HitOf(t, c, d);
  }

  /** `searchSimilarChunks(query, limit)` with the database given as its
      tables (`None` when `getDb()` throws) and `fails` for a failing query.
      Every hit contains the whole lower-cased query, not just one of its
      terms; at most `limit` hits come back, in chunk-index order, and no
      matching chunk left out has a smaller index than one returned. */
  function SearchSimilarChunks(db: Option<Tables>, query: string, limit: nat, fails: bool): (r: seq<ChunkHit>)
    ensures |r| <= limit
    ensures db.None? || SearchTerms(query) == [] || fails ==> r == []
    ensures forall i :: 0 <= i < |r| ==> Contains(Lower(r[i].content), Lower(query))
    ensures SortedBy(r, HitIndex)
    ensures db.Some? ==> forall i :: 0 <= i < |r| ==> IsHitFor(db.value, Lower(query), r[i])
    ensures db.Some? && SearchTerms(query) != [] && !fails ==>
      && |r| == Min(limit, |MatchingHits(db.value, db.value.chunks, Lower(query))|)
      && multiset(r) <= multiset(MatchingHits(db.value, db.value.chunks, Lower(query)))
      && forall h :: h in MatchingHits(db.value, db.value.chunks, Lower(query)) && h !in r ==>
           forall i :: 0 <= i < |r| ==> r[i].chunkIndex <= h.chunkIndex
  {
    if db.None? || SearchTerms(query) == [] || fails then []
    else
      var all := MatchingHits(db.value, db.value.chunks, Lower(query));
      var r := OrderByLimit(all, HitIndex, limit);
      forall i | 0 <= i < |r| ensures Contains(Lower(r[i].content), Lower(query)) {
        assert r[i] in all;
        HitMatches(db.value, Lower(query), r[i]);
      }
      r
  }

  // ---------------------------------------------------------------------
  // MIME tables (src/utils/text.js:121-142)
  // ---------------------------------------------------------------------

  const PdfType := "application/pdf"
  const DocxType := "application/vnd.openxmlformats-officedocument.wordprocessingml.document"
  const TextType := "text/plain"
  const DocType := "application/msword"

  /** `isValidFileType`: membership in the list of allowed types. */
  predicate IsValidFileType(mimeType: string) {
    mimeType in [PdfType, DocxType, TextType, DocType]
  }

  const Extensions: map<string, string> :=
    map[PdfType := ".pdf", DocxType := ".docx", DocType := ".doc", TextType := ".txt"]

  /** `getFileExtension`: `extensions[mimeType] || ''`. The table and the
      list name the same four types, so an extension is found exactly for
      the valid types, and every other type maps to the empty string. */
  function GetFileExtension(mimeType: string): (r: string)
    ensures r != "" <==> IsValidFileType(mimeType)
    ensures !IsValidFileType(mimeType) ==> r == ""
    ensures IsValidFileType(mimeType) ==> r == ".pdf" || r == ".docx" || r == ".doc" || r == ".txt"
  {
    if mimeType in Extensions then Extensions[mimeType] else ""
  }
}
