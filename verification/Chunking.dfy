/** Cutting documents into overlapping windows of tokens (backend/internal/rag/chunk.go) and predicting
    how many windows there will be (expectedChunkCountForTokens in index_skip.go). */
module Chunking {
  import opened Text
  import opened Documents
  import opened ChunkIds

  datatype ChunkConfig = ChunkConfig(size: int, overlap: real)

  datatype Chunk = Chunk(
    id: string, documentID: string, translationID: string, language: string, title: string,
    text: string, tokenCount: int, source: SourceMetadata, metadata: Metadata)

  function WithDefaults(c: ChunkConfig): ChunkConfig {
    ChunkConfig(if c.size == 0 then 768 else c.size, if c.overlap == 0.0 then 0.15 else c.overlap)
  }

  predicate Valid(c: ChunkConfig) {
    512 <= c.size <= 1024 && 0.10 <= c.overlap <= 0.20
  }

  /** Conversion of a real to an integer, towards zero. */
  function Truncate(x: real): int {
    if x >= 0.0 then x.Floor else -((-x).Floor)
  }

  /** How many tokens neighbouring chunks share. */
  function Overlap(c: ChunkConfig): int {
    Truncate(c.size as real * c.overlap)
  }

  function Step(c: ChunkConfig): int {
    c.size - Overlap(c)
  }

  /** Valid settings overlap by a positive amount and still move forward. */
  lemma ValidStep(c: ChunkConfig)
    requires Valid(c)
    ensures 0 < Step(c) < c.size
  {
    OverlapIsCut(c);
    hide Overlap;
  }

  lemma OverlapIsCut(c: ChunkConfig)
    requires Valid(c)
    ensures 51 <= Overlap(c) <= 205
  {
    OverlapBounds(c.size as real, c.overlap, 0.10, 0.20);
    FloorBounds(c.size as real * c.overlap);
    hide Truncate;
  }

  lemma OverlapBounds(size: real, overlap: real, lo: real, hi: real)
    requires 512.0 <= size <= 1024.0 && lo == 0.10 && hi == 0.20 && lo <= overlap <= hi
    ensures 51.0 <= size * overlap <= 205.0
  {
    ProductsGrow(size, lo, overlap);
    ProductsGrow(size, overlap, hi);
    ExtremeOverlaps(size, lo, hi);
  }

  lemma ExtremeOverlaps(size: real, lo: real, hi: real)
    requires 512.0 <= size <= 1024.0 && lo == 0.10 && hi == 0.20
    ensures 51.0 <= size * lo && size * hi <= 205.0
  {
    assert size * 0.10 >= 51.2;
    assert size * 0.20 <= 204.8;
  }

  lemma FloorBounds(x: real)
    requires 51.0 <= x <= 205.0
    ensures 51 <= Truncate(x) <= 205
  {
  }

  lemma ProductsGrow(a: real, x: real, y: real)
    requires a >= 0.0 && x <= y
    ensures a * x <= a * y
  {
    assert a * y - a * x == a * (y - x);
  }

  // ----- Windows -----

  datatype Span = Span(start: nat, end: nat)

  /** The windows over `n` tokens from position `start` on. */
  function Spans(n: nat, size: nat, step: nat, start: nat): seq<Span>
    requires 0 < size && 0 < step
    decreases n - start
  {
    if start >= n then []
    else if start + size >= n then [Span(start, n)]
    else [Span(start, start + size)] + Spans(n, size, step, start + step)
  }

  function CeilDiv(a: nat, d: nat): nat
    requires d > 0
  {
    (a + d - 1) / d
  }

  lemma MultiplesApart(p: int, q: int, d: nat)
    requires p < q
    ensures p * d + d <= q * d
  {
    var more: nat := q - p - 1;
    assert q * d == (p + 1) * d + more * d;
  }

  lemma QuotientIsUnique(a: nat, d: nat, q: nat, r: nat)
    requires r < d && a == q * d + r
    ensures a / d == q
  {
    var p, s := a / d, a % d;
    assert a == p * d + s;
    if p < q {
      MultiplesApart(p, q, d);
    } else if q < p {
      MultiplesApart(q, p, d);
    }
  }

  lemma CeilDivStep(a: nat, d: nat)
    requires 0 < d && 0 < a
    ensures CeilDiv(a, d) == 1 + CeilDiv(if a >= d then a - d else 0, d)
  {
    var rest := if a >= d then a - d else 0;
    var q, r := (rest + d - 1) / d, (rest + d - 1) % d;
    assert rest + d - 1 == q * d + r;
    if a >= d {
      assert (q + 1) * d == q * d + d;
      QuotientIsUnique(a + d - 1, d, q + 1, r);
    } else {
      QuotientIsUnique(d - 1, d, 0, d - 1);
      QuotientIsUnique(a + d - 1, d, 1, a - 1);
    }
  }

  /** The number of windows has a closed form: one, and one more for every started step beyond the
      first window. */
  lemma {:induction false} SpanCount(n: nat, size: nat, step: nat, start: nat)
    requires 0 < step <= size && start < n
    ensures |Spans(n, size, step, start)| == 1 + CeilDiv(if n - start > size then n - start - size else 0, step)
    decreases n - start
  {
    if start + size < n {
      SpanCount(n, size, step, start + step);
      CeilDivStep(n - start - size, step);
    }
  }

  /** Neighbouring windows overlap by `size - step`, and every window after the first brings at least
      one new token. */
  lemma {:induction false} SpanShape(n: nat, size: nat, step: nat, start: nat, k: nat)
    requires 0 < step <= size
    requires k < |Spans(n, size, step, start)|
    ensures var s := Spans(n, size, step, start);
            && s[k].start == start + k * step
            && s[k].start < s[k].end <= n
            && s[k].end - s[k].start <= size
            && (k == |s| - 1 <==> s[k].end == n)
            && (k + 1 < |s| ==> s[k + 1].start + (size - step) == s[k].end < s[k + 1].end)
    decreases k
  {
    if start < n && start + size < n {
      if k > 0 {
        SpanShape(n, size, step, start + step, k - 1);
        assert start + step + (k - 1) * step == start + k * step;
      } else {
        assert 0 * step == 0;
      }
    }
  }

  function SpanTokens(spans: seq<Span>): int {
    if spans == [] then 0 else spans[0].end - spans[0].start + SpanTokens(spans[1..])
  }

  /** The windows together hold every token once, and the overlap twice. */
  lemma {:induction false} SpanTokenSum(n: nat, size: nat, step: nat, start: nat)
    requires 0 < step <= size && start < n
    ensures var s := Spans(n, size, step, start);
            SpanTokens(s) == n - start + (|s| - 1) * (size - step)
    decreases n - start
  {
    var s := Spans(n, size, step, start);
    if start + size < n {
      SpanTokenSum(n, size, step, start + step);
      assert s[1..] == Spans(n, size, step, start + step);
    } else {
      assert s[1..] == [];
    }
  }

  /** expectedChunkCountForTokens: a loop of its own that must agree with the chunker. */
  method ExpectedChunkCountForTokens(tokenCount: int, chunkSize: int, step: int) returns (chunks: int)
    ensures chunks == ExpectedCount(tokenCount, chunkSize, step)
  {
    if tokenCount <= 0 || chunkSize <= 0 || step <= 0 {
      return 0;
    }
    chunks := 0;
    var start := 0;
    while start < tokenCount
      invariant 0 <= start && 0 <= chunks
      invariant chunks + |Spans(tokenCount, chunkSize, step, start)| == |Spans(tokenCount, chunkSize, step, 0)|
    {
      var end := start + chunkSize;
      if end > tokenCount {
        end := tokenCount;
      }
      if start >= end {
        assert false;
        break;
      }
      chunks := chunks + 1;
      if end == tokenCount {
        return;
      }
      start := start + step;
    }
  }

  function ExpectedCount(tokenCount: int, chunkSize: int, step: int): nat {
    if tokenCount <= 0 || chunkSize <= 0 || step <= 0 then 0 else |Spans(tokenCount, chunkSize, step, 0)|
  }

  // ----- Chunks -----

  function TranslationKey(doc: Document, known: seq<string>): string {
    var key := TrimSpace(doc.translationID);
    var l := Normalize(doc.language);
    ReplaceSeparators(if key == "" then doc.id + ":" + (if l in known then l else "") else key)
  }

  function MakeChunk(doc: Document, known: seq<string>, tokens: seq<string>, s: Span, part: nat): Chunk
    requires s.start <= s.end <= |tokens|
  {
    Chunk(ChunkID(TranslationKey(doc, known), part), doc.id, doc.translationID, doc.language, doc.title,
          JoinWords(tokens[s.start..s.end]), s.end - s.start, doc.source, doc.metadata)
  }

  /** The chunks of one document. */
  function ChunksOf(doc: Document, known: seq<string>, size: nat, step: nat): (r: seq<Chunk>)
    requires 0 < step <= size
    ensures |r| == |Spans(|Fields(doc.content)|, size, step, 0)|
    ensures forall k | 0 <= k < |r| ::
              var tokens := Fields(doc.content);
              var s := Spans(|tokens|, size, step, 0)[k];
              s.start <= s.end <= |tokens| && r[k] == MakeChunk(doc, known, tokens, s, k)
  {
    var tokens := Fields(doc.content);
    var spans := Spans(|tokens|, size, step, 0);
    assert forall k | 0 <= k < |spans| :: spans[k].start <= spans[k].end <= |tokens| by {
      forall k | 0 <= k < |spans|
        ensures spans[k].start <= spans[k].end <= |tokens|
      {
        SpanShape(|tokens|, size, step, 0, k);
      }
    }
    seq(|spans|, k requires 0 <= k < |spans| => MakeChunk(doc, known, tokens, spans[k], k))
  }

  /** The chunks of several documents, in order. */
  function ChunksOfAll(docs: seq<Document>, known: seq<string>, size: nat, step: nat): seq<Chunk>
    requires 0 < step <= size
  {
    if docs == [] then []
    else ChunksOfAll(docs[..|docs| - 1], known, size, step) + ChunksOf(docs[|docs| - 1], known, size, step)
  }

  function ChunkResult(docs: seq<Document>, cfg: ChunkConfig, known: seq<string>): Result<seq<Chunk>> {
    var c := WithDefaults(cfg);
    if !Valid(c) then Failure(InvalidChunkSettings)
    else if docs == [] then Failure(NoDocuments)
    else
      ValidStep(c);
      var chunks := ChunksOfAll(docs, known, c.size, Step(c));
      if chunks == [] then Failure(NoChunks) else Success(chunks)
  }

  /** Settings are refused exactly when the size is neither 0, which stands for 768, nor between 512 and 1024, or the
      overlap neither 0, which stands for 15 %, nor between 10 % and 20 %; what is not refused overlaps by that share
      of the size, rounded down. */
  lemma SettingsAreRefusedIff(docs: seq<Document>, cfg: ChunkConfig, known: seq<string>)
    ensures ChunkResult(docs, cfg, known) == Failure(InvalidChunkSettings)
            <==> !(cfg.size == 0 || 512 <= cfg.size <= 1024) || !(cfg.overlap == 0.0 || 0.10 <= cfg.overlap <= 0.20)
    ensures ChunkResult(docs, cfg, known).Success? ==>
              var size := if cfg.size == 0 then 768 else cfg.size;
              var ratio := if cfg.overlap == 0.0 then 0.15 else cfg.overlap;
              var overlap := WithDefaults(cfg).size - Step(WithDefaults(cfg));
              WithDefaults(cfg).size == size && overlap as real <= size as real * ratio < overlap as real + 1.0
  {
    if Valid(WithDefaults(cfg)) {
      OverlapIsFloor(WithDefaults(cfg));
    }
    hide ChunksOfAll, Step;
  }

  lemma OverlapIsFloor(c: ChunkConfig)
    requires Valid(c)
    ensures Overlap(c) as real <= c.size as real * c.overlap < Overlap(c) as real + 1.0
    ensures c.size - Step(c) == Overlap(c)
  {
    OverlapBounds(c.size as real, c.overlap, 0.10, 0.20);
    FloorIsBelow(c.size as real * c.overlap);
  }

  lemma FloorIsBelow(x: real)
    requires x >= 0.0
    ensures Truncate(x) as real <= x < Truncate(x) as real + 1.0
  {
  }

  /** The inner loop of ChunkDocuments. */
  method ChunkDocument(doc: Document, known: seq<string>, size: nat, step: nat) returns (chunks: seq<Chunk>)
    requires 0 < step <= size
    ensures chunks == ChunksOf(doc, known, size, step)
  {
    hide Fields, MakeChunk;
    chunks := [];
    var tokens := Fields(doc.content);
    ghost var spans := Spans(|tokens|, size, step, 0);
    var start, part := 0, 0;
    while start < |tokens|
      invariant 0 <= part <= |spans| && 0 <= start
      invariant spans[part..] == Spans(|tokens|, size, step, start)
      invariant chunks == ChunksOf(doc, known, size, step)[..part]
    {
      var end := start + size;
      if end > |tokens| {
        end := |tokens|;
      }
      assert spans[part] == spans[part..][0] == Span(start, end);
      chunks := chunks + [MakeChunk(doc, known, tokens, Span(start, end), part)];
      assert spans[part + 1..] == spans[part..][1..];
      if end == |tokens| {
        assert spans[part..] == [Span(start, end)];
        return;
      }
      start, part := start + step, part + 1;
    }
  }

  method ChunkDocuments(docs: seq<Document>, cfg: ChunkConfig, known: seq<string>) returns (r: Result<seq<Chunk>>)
    ensures r == ChunkResult(docs, cfg, known)
  {
    var c := WithDefaults(cfg);
    if !Valid(c) {
      return Failure(InvalidChunkSettings);
    }
    if docs == [] {
      return Failure(NoDocuments);
    }
    var chunks: seq<Chunk> := [];
    ValidStep(c);
    for d := 0 to |docs|
      invariant chunks == ChunksOfAll(docs[..d], known, c.size, Step(c))
    {
      var more := ChunkDocument(docs[d], known, c.size, Step(c));
      assert docs[..d + 1][..d] == docs[..d];
      chunks := chunks + more;
    }
    assert docs[..|docs|] == docs;
    return if chunks == [] then Failure(NoChunks) else Success(chunks);
  }

  // ----- What the chunks are worth -----

  function Drop<T>(s: seq<T>, n: nat): seq<T> {
    if n <= |s| then s[n..] else []
  }

  /** Reassembling: the first window whole, then every other window without the repeated tokens. */
  function Rejoin<T>(windows: seq<seq<T>>, overlap: nat): seq<T> {
    if windows == [] then []
    else Rejoin(windows[..|windows| - 1], overlap)
         + Drop(windows[|windows| - 1], if |windows| == 1 then 0 else overlap)
  }

  function Windows<T>(tokens: seq<T>, spans: seq<Span>): (r: seq<seq<T>>)
    requires forall k | 0 <= k < |spans| :: spans[k].start <= spans[k].end <= |tokens|
    ensures |r| == |spans|
  {
    seq(|spans|, k requires 0 <= k < |spans| => tokens[spans[k].start..spans[k].end])
  }

  /** Consecutive spans over a text repeat exactly `overlap` tokens. */
  ghost predicate Adjacent(spans: seq<Span>, n: nat, overlap: nat) {
    && (forall k | 0 <= k < |spans| :: spans[k].start <= spans[k].end <= n)
    && (spans != [] ==> spans[0].start == 0)
    && (forall k | 0 < k < |spans| :: spans[k].start + overlap == spans[k - 1].end < spans[k].end)
  }

  lemma Glue<T>(tokens: seq<T>, e: nat, s: Span, overlap: nat)
    requires s.start + overlap == e <= s.end <= |tokens|
    ensures tokens[..e] + Drop(tokens[s.start..s.end], overlap) == tokens[..s.end]
  {
    assert Drop(tokens[s.start..s.end], overlap) == tokens[e..s.end];
  }

  lemma {:induction false} RejoinAdjacent<T>(tokens: seq<T>, spans: seq<Span>, overlap: nat)
    requires Adjacent(spans, |tokens|, overlap) && spans != []
    ensures Rejoin(Windows(tokens, spans), overlap) == tokens[..spans[|spans| - 1].end]
    decreases |spans|
  {
    hide Windows, Drop;
    var w, n := Windows(tokens, spans), |spans| - 1;
    LastWindow(tokens, spans);
    if n > 0 {
      RejoinAdjacent(tokens, spans[..n], overlap);
      Glue(tokens, spans[n - 1].end, spans[n], overlap);
    } else {
      assert w[..0] == [];
      DropNothing(tokens[..spans[0].end]);
    }
  }

  lemma DropNothing<T>(s: seq<T>)
    ensures Drop(s, 0) == s
  {
  }

  lemma LastWindow<T>(tokens: seq<T>, spans: seq<Span>)
    requires spans != [] && forall k | 0 <= k < |spans| :: spans[k].start <= spans[k].end <= |tokens|
    ensures var n := |spans| - 1;
            && Windows(tokens, spans)[..n] == Windows(tokens, spans[..n])
            && Windows(tokens, spans)[n] == tokens[spans[n].start..spans[n].end]
  {
  }

  lemma SpansAreAdjacent(n: nat, size: nat, step: nat)
    requires 0 < step <= size
    ensures Adjacent(Spans(n, size, step, 0), n, size - step)
  {
    var s := Spans(n, size, step, 0);
    forall k | 0 <= k < |s|
      ensures s[k].start <= s[k].end <= n
      ensures k == 0 ==> s[k].start == 0
      ensures k > 0 ==> s[k].start + (size - step) == s[k - 1].end < s[k].end
    {
      SpanShape(n, size, step, 0, k);
      if k > 0 {
        SpanShape(n, size, step, 0, k - 1);
      }
    }
  }

  lemma LastSpanEnds(n: nat, size: nat, step: nat)
    requires 0 < step <= size
    ensures var s := Spans(n, size, step, 0);
            if n == 0 then s == [] else s != [] && s[|s| - 1].end == n
  {
    if n > 0 {
      SpanCount(n, size, step, 0);
      SpanShape(n, size, step, 0, |Spans(n, size, step, 0)| - 1);
    }
  }

  /** The tokens of each chunk's text. */
  function ChunkWindows(chunks: seq<Chunk>): seq<seq<string>> {
    seq(|chunks|, k requires 0 <= k < |chunks| => Fields(chunks[k].text))
  }

  lemma ChunkTokens(doc: Document, known: seq<string>, size: nat, step: nat, k: nat)
    requires 0 < step <= size
    requires k < |ChunksOf(doc, known, size, step)|
    ensures var tokens := Fields(doc.content);
            var s := Spans(|tokens|, size, step, 0)[k];
            var c := ChunksOf(doc, known, size, step)[k];
            && s.start <= s.end <= |tokens|
            && Fields(c.text) == tokens[s.start..s.end]
            && c.tokenCount == |Fields(c.text)|
  {
    var tokens := Fields(doc.content);
    var s := Spans(|tokens|, size, step, 0)[k];
    FieldsAreWords(doc.content);
    FieldsOfJoin(tokens[s.start..s.end]);
  }

  lemma ChunkWindowsOf(doc: Document, known: seq<string>, size: nat, step: nat)
    requires 0 < step <= size
    ensures var tokens := Fields(doc.content);
            var spans := Spans(|tokens|, size, step, 0);
            && Adjacent(spans, |tokens|, size - step)
            && ChunkWindows(ChunksOf(doc, known, size, step)) == Windows(tokens, spans)
  {
    var tokens, cs := Fields(doc.content), ChunksOf(doc, known, size, step);
    SpansAreAdjacent(|tokens|, size, step);
    forall k | 0 <= k < |cs|
      ensures Fields(cs[k].text) == Windows(tokens, Spans(|tokens|, size, step, 0))[k]
    {
      ChunkTokens(doc, known, size, step, k);
    }
  }

  /** Chunking loses nothing: dropping the repeated tokens of the chunk texts gives back the tokens of the
      document, in order. */
  lemma ChunkingRoundTrips(doc: Document, known: seq<string>, size: nat, step: nat)
    requires 0 < step <= size
    ensures Rejoin(ChunkWindows(ChunksOf(doc, known, size, step)), size - step) == Fields(doc.content)
  {
    hide Fields, Spans, Windows, ChunkWindows, ChunksOf, Rejoin, Adjacent;
    var tokens := Fields(doc.content);
    var spans := Spans(|tokens|, size, step, 0);
    ChunkWindowsOf(doc, known, size, step);
    LastSpanEnds(|tokens|, size, step);
    if tokens == [] {
      NothingToRejoin(tokens, size - step);
    } else {
      RejoinAdjacent(tokens, spans, size - step);
      assert tokens[..|tokens|] == tokens;
    }
  }

  lemma NothingToRejoin<T>(tokens: seq<T>, overlap: nat)
    ensures Rejoin(Windows(tokens, []), overlap) == []
  {
  }

  function TokenCounts(chunks: seq<Chunk>): int {
    if chunks == [] then 0 else chunks[0].tokenCount + TokenCounts(chunks[1..])
  }

  lemma {:induction false} TokenCountsOfSpans(chunks: seq<Chunk>, spans: seq<Span>)
    requires |chunks| == |spans|
    requires forall k | 0 <= k < |chunks| :: chunks[k].tokenCount == spans[k].end - spans[k].start
    ensures TokenCounts(chunks) == SpanTokens(spans)
    decreases |chunks|
  {
    if chunks != [] {
      TokenCountsOfSpans(chunks[1..], spans[1..]);
    }
  }

  /** For valid settings: how many chunks a text of `n` tokens gives, and how many tokens they count. */
  lemma ChunkArithmetic(doc: Document, known: seq<string>, cfg: ChunkConfig)
    requires Valid(cfg) && Fields(doc.content) != []
    ensures 0 < Step(cfg) < cfg.size
    ensures var n := |Fields(doc.content)|;
            var step := Step(cfg);
            var cs := ChunksOf(doc, known, cfg.size, step);
            && |cs| == ExpectedCount(n, cfg.size, step) == 1 + CeilDiv(if n > cfg.size then n - cfg.size else 0, step)
            && TokenCounts(cs) == n + (|cs| - 1) * (cfg.size - step)
  {
    ValidStep(cfg);
    var n := |Fields(doc.content)|;
    SpanCount(n, cfg.size, Step(cfg), 0);
    SpanTokenSum(n, cfg.size, Step(cfg), 0);
    TokenCountsOfSpans(ChunksOf(doc, known, cfg.size, Step(cfg)), Spans(n, cfg.size, Step(cfg), 0));
  }
}
