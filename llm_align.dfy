/** The bookkeeping of the LLM back end in scripts/llm_align.py (align_with_llm and its own
    _interpolate_unmatched): the dialogue is cut into batches, each batch is shown a window
    of words around a cursor, the spans the model returns are clamped and checked, the
    cursor moves past the last accepted span, and unmatched lines are interpolated between
    their matched neighbours. The model's reply to a batch is a parameter: the network call,
    the prompt and the parsing of the reply are not part of this model. Dialogue line `i`
    has index `i` (load_dialogue numbers the lines in file order), and so does word `i`. */
module LlmAlign {
  import opened Text
  import opened Runs
  import opened Segments

  /** How many words before the cursor the window starts. */
  const ContextWords: nat := 20
  /** The widest span any line may get, whatever its length. */
  const MinSpanCap: nat := 20
  /** How many times its own word count a line's span may be wide. */
  const SpanFactor: nat := 3
  /** The length of the fallback slots of interpolation, in seconds. */
  const SlotLength: real := 2.0

  /** An output segment: the line's text, speaker and translation, its times, whether it
      was matched and, when it was, the word span (both -1 otherwise). */
  datatype OutSeg = OutSeg(text: string, speaker: string, translation: string,
                           start: real, end: real, matched: bool, wStart: int, wEnd: int)

  /** What the reply says for one line: no usable entry (missing, null or "null"), a word
      span (the values `int()` makes of `w_start` and `w_end`), or an entry whose lookup or
      `int()` conversion raises. */
  datatype Answer = Null | Span(wStart: int, wEnd: int) | Malformed

  /** The reply to one batch: the request failed, the reply is not JSON, or a mapping from
      line index to answer. */
  datatype Reply = ApiError | ParseError | Mapping(answers: map<nat, Answer>)

  /** The model, as seen by the aligner: the reply for the word window [winStart, winEnd)
      and the batch of lines [lo, hi). */
  type Llm = (nat, int, nat, nat) -> Reply

  /** _unmatched_seg: the line with its placeholder times. */
  function UnmatchedSeg(line: Line): OutSeg {
    OutSeg(line.text, line.speaker, line.translation, line.startTime, line.endTime, false, -1, -1)
  }

  // ---------------------------------------------------------------------------
  // Batches
  // ---------------------------------------------------------------------------

  /** The lines [lo, hi) of one batch. */
  datatype Batch = Batch(lo: nat, hi: nat)

  /** `dialogue[i:i+batch_size]` for i in `range(start, n, batch_size)`, as index bounds. */
  function BatchesFrom(i: nat, n: nat, size: nat): (b: seq<Batch>)
    requires size > 0
    ensures forall k :: 0 <= k < |b| ==> i <= b[k].lo < b[k].hi <= n
    decreases n - i
  {
    if i >= n then [] else [Batch(i, if i + size <= n then i + size else n)] + BatchesFrom(i + size, n, size)
  }

  /** The batches of a dialogue of `n` lines. */
  function Batches(n: nat, size: nat): seq<Batch>
    requires size > 0
  {
    BatchesFrom(0, n, size)
  }

  /** The batches from `i` cover [i, n) in order without gaps or overlaps, each holds
      `size` lines except the last, which holds between one and `size`. */
  lemma {:induction false} BatchesFromPartition(i: nat, n: nat, size: nat)
    requires size > 0 && i <= n
    ensures var b := BatchesFrom(i, n, size);
      && (b == [] <==> i == n)
      && (b != [] ==> b[0].lo == i && b[|b| - 1].hi == n)
      && (forall k :: 0 <= k < |b| - 1 ==> b[k].hi == b[k + 1].lo && b[k].hi - b[k].lo == size)
      && (forall k :: 0 <= k < |b| ==> b[k].hi - b[k].lo <= size)
    decreases n - i
  {
    if i < n && i + size < n {
      BatchesFromPartition(i + size, n, size);
    }
  }

  /** The batches partition the dialogue into consecutive chunks of `batch_size` lines, with
      only the last possibly shorter. */
  lemma BatchesPartition(n: nat, size: nat)
    requires size > 0
    ensures var b := Batches(n, size);
      && (b == [] <==> n == 0)
      && (b != [] ==> b[0].lo == 0 && b[|b| - 1].hi == n)
      && (forall k :: 0 <= k < |b| - 1 ==> b[k].hi == b[k + 1].lo && b[k].hi - b[k].lo == size)
      && (forall k :: 0 <= k < |b| ==> 0 < b[k].hi - b[k].lo <= size)
  {
    BatchesFromPartition(0, n, size);
  }

  /** The list comprehension that builds the batches. */
  method MakeBatches(n: nat, size: nat) returns (batches: seq<Batch>)
    requires size > 0
    ensures batches == Batches(n, size)
  {
    batches := [];
    var i := 0;
    while i < n
      invariant batches + BatchesFrom(i, n, size) == Batches(n, size)
      decreases n - i
    {
      batches := batches + [Batch(i, if i + size <= n then i + size else n)];
      i := i + size;
    }
  }

  // ---------------------------------------------------------------------------
  // The word window and the span checks
  // ---------------------------------------------------------------------------

  /** `win_start = max(0, cursor - 20)`. */
  function WinStart(cursor: nat): nat {
    if cursor >= ContextWords then cursor - ContextWords else 0
  }

  /** `win_end = min(n_words, win_start + window)`. */
  function WinEnd(nw: nat, cursor: nat, window: int): int {
    Min(nw, WinStart(cursor) + window)
  }

  /** While the cursor is within the word list, the window is a slice of it that starts at
      most 20 words before the cursor (exactly 20 when there are that many) and holds at
      most `window` words. */
  lemma WindowBounds(nw: nat, cursor: nat, window: int)
    requires cursor <= nw && window >= 0
    ensures 0 <= WinStart(cursor) <= WinEnd(nw, cursor, window) <= nw
    ensures WinStart(cursor) <= cursor
    ensures cursor >= ContextWords ==> cursor - WinStart(cursor) == ContextWords
    ensures WinEnd(nw, cursor, window) - WinStart(cursor) <= window
  {
  }

  /** The first word of a returned span, clamped: `max(0, min(w_start, n_words - 1))`. */
  function SpanStart(nw: nat, a: Answer): nat
    requires nw > 0 && a.Span?
  {
    Max(0, Min(a.wStart, nw - 1))
  }

  /** The last word of a returned span, clamped: `max(w_start, min(w_end, n_words - 1))`. */
  function SpanEnd(nw: nat, a: Answer): nat
    requires nw > 0 && a.Span?
  {
    Max(SpanStart(nw, a), Min(a.wEnd, nw - 1))
  }

  /** Clamping yields a span inside the word list, and leaves a span that already is one
      unchanged. */
  lemma ClampSpan(nw: nat, a: Answer)
    requires nw > 0 && a.Span?
    ensures 0 <= SpanStart(nw, a) <= SpanEnd(nw, a) < nw
    ensures 0 <= a.wStart <= a.wEnd < nw ==> SpanStart(nw, a) == a.wStart && SpanEnd(nw, a) == a.wEnd
  {
  }

  /** `max(20, dialogue_words * 3)`: the widest span a line may get. */
  function MaxSpan(text: string): nat {
    Max(MinSpanCap, SpanFactor * |Split(text)|)
  }

  /** The answer for a line is a span that, once clamped, is no wider than the line allows. */
  predicate Accepts(nw: nat, line: Line, a: Answer)
    requires nw > 0
  {
    a.Span? && SpanEnd(nw, a) - SpanStart(nw, a) + 1 <= MaxSpan(line.text)
  }

  /** The result a line gets from its answer. */
  function AnswerOut(words: seq<Word>, line: Line, a: Answer): OutSeg
    requires |words| > 0
  {
    if !a.Span? then UnmatchedSeg(line)
    else
      var s := SpanStart(|words|, a);
      var e := SpanEnd(|words|, a);
      if e - s + 1 > MaxSpan(line.text) then UnmatchedSeg(line)
      else OutSeg(line.text, line.speaker, line.translation, words[s].start, words[e].end, true, s, e)
  }

  /** `o` is a result for `line`: it carries the line's text, speaker and translation; a
      matched result names a span of at most max(20, 3 * word count) words inside the word
      list and takes its times from that span's first and last words; an unmatched one
      keeps the line's placeholder times. */
  predicate Describes(words: seq<Word>, line: Line, o: OutSeg) {
    && o.text == line.text && o.speaker == line.speaker && o.translation == line.translation
    && (o.matched ==> && 0 <= o.wStart <= o.wEnd < |words|
                      && o.wEnd - o.wStart + 1 <= MaxSpan(line.text)
                      && o.start == words[o.wStart].start && o.end == words[o.wEnd].end)
    && (!o.matched ==> o.start == line.startTime && o.end == line.endTime)
  }

  /** A line is matched exactly when its answer is a span that passes the width check;
      the span is then the clamped one, and the result describes the line. */
  lemma AnswerOutSpec(words: seq<Word>, line: Line, a: Answer)
    requires |words| > 0
    ensures var o := AnswerOut(words, line, a);
      && Describes(words, line, o)
      && (o.matched <==> Accepts(|words|, line, a))
      && (o.matched ==> o.wStart == SpanStart(|words|, a) && o.wEnd == SpanEnd(|words|, a))
  {
    if a.Span? {
      ClampSpan(|words|, a);
    }
  }

  // ---------------------------------------------------------------------------
  // One batch
  // ---------------------------------------------------------------------------

  /** `mapping.get(...)`: the answer for line `i`, Null when the reply has none. */
  function AnswerAt(m: map<nat, Answer>, i: nat): Answer {
    if i in m then m[i] else Null
  }

  /** The result line `i` gets from its batch's reply: unmatched when the request or the
      parse failed, its answer's outcome otherwise. */
  function OutAt(words: seq<Word>, dialogue: seq<Line>, reply: Reply, i: nat): OutSeg
    requires |words| > 0 && i < |dialogue|
  {
    if reply.Mapping? then AnswerOut(words, dialogue[i], AnswerAt(reply.answers, i))
    else UnmatchedSeg(dialogue[i])
  }

  /** `results` after `results[i] = ...` for the lines i in [lo, j), in order, under one
      reply. */
  function Recorded(words: seq<Word>, dialogue: seq<Line>, reply: Reply,
                    results: map<nat, OutSeg>, lo: nat, j: nat): map<nat, OutSeg>
    requires |words| > 0 && lo <= j <= |dialogue|
    decreases j - lo
  {
    if j == lo then results
    else Recorded(words, dialogue, reply, results, lo, j - 1)[j - 1 := OutAt(words, dialogue, reply, j - 1)]
  }

  /** Recording lines [lo, j) adds exactly their keys, gives each its result under the
      reply, and leaves every other entry as it was. */
  lemma RecordedSpec(words: seq<Word>, dialogue: seq<Line>, reply: Reply,
                     results: map<nat, OutSeg>, lo: nat, j: nat)
    requires |words| > 0 && lo <= j <= |dialogue|
    ensures var r := Recorded(words, dialogue, reply, results, lo, j);
      && (forall k :: k in r <==> k in results || lo <= k < j)
      && (forall k :: lo <= k < j ==> r[k] == OutAt(words, dialogue, reply, k))
      && (forall k :: k in results && !(lo <= k < j) ==> r[k] == results[k])
  {
    RecordedKeys(words, dialogue, reply, results, lo, j);
    RecordedNew(words, dialogue, reply, results, lo, j);
    RecordedOld(words, dialogue, reply, results, lo, j);
  }

  lemma {:induction false} RecordedKeys(words: seq<Word>, dialogue: seq<Line>, reply: Reply,
                                        results: map<nat, OutSeg>, lo: nat, j: nat)
    requires |words| > 0 && lo <= j <= |dialogue|
    ensures forall k :: k in Recorded(words, dialogue, reply, results, lo, j) <==>
      k in results || lo <= k < j
    decreases j - lo
  {
    if j > lo {
      RecordedKeys(words, dialogue, reply, results, lo, j - 1);
    }
  }

  lemma {:induction false} RecordedNew(words: seq<Word>, dialogue: seq<Line>, reply: Reply,
                                       results: map<nat, OutSeg>, lo: nat, j: nat)
    requires |words| > 0 && lo <= j <= |dialogue|
    ensures forall k :: lo <= k < j ==>
      k in Recorded(words, dialogue, reply, results, lo, j)
      && Recorded(words, dialogue, reply, results, lo, j)[k] == OutAt(words, dialogue, reply, k)
    decreases j - lo
  {
    if j > lo {
      RecordedNew(words, dialogue, reply, results, lo, j - 1);
    }
  }

  lemma {:induction false} RecordedOld(words: seq<Word>, dialogue: seq<Line>, reply: Reply,
                                       results: map<nat, OutSeg>, lo: nat, j: nat)
    requires |words| > 0 && lo <= j <= |dialogue|
    ensures forall k :: k in results && !(lo <= k < j) ==>
      k in Recorded(words, dialogue, reply, results, lo, j)
      && Recorded(words, dialogue, reply, results, lo, j)[k] == results[k]
    decreases j - lo
  {
    if j > lo {
      RecordedOld(words, dialogue, reply, results, lo, j - 1);
    }
  }

  /** `last_matched_w_end` after the answers for lines [lo, j): the clamped end of the last
      accepted span among them, or the cursor when there is none. */
  function LastEnd(words: seq<Word>, dialogue: seq<Line>, m: map<nat, Answer>, lo: nat, j: nat,
                   cursor: nat): nat
    requires |words| > 0 && lo <= j <= |dialogue|
    decreases j - lo
  {
    if j == lo then cursor
    else if Accepts(|words|, dialogue[j - 1], AnswerAt(m, j - 1))
    then SpanEnd(|words|, AnswerAt(m, j - 1))
    else LastEnd(words, dialogue, m, lo, j - 1, cursor)
  }

  /** The cursor after a batch [lo, hi) and its reply. */
  function NextCursor(words: seq<Word>, dialogue: seq<Line>, reply: Reply, lo: nat, hi: nat,
                      cursor: nat): nat
    requires |words| > 0 && lo < hi <= |dialogue|
  {
    match reply
    case ApiError => cursor
    case ParseError => Max(cursor, ((hi - 1) * |words|) / |dialogue|)
    case Mapping(m) =>
      var last := LastEnd(words, dialogue, m, lo, hi, cursor);
      if last > cursor then last + 1 else cursor
  }

  /** The state the batch loop carries: the results so far and the cursor. */
  datatype State = State(results: map<nat, OutSeg>, cursor: nat)

  /** One pass of the batch loop: ask for the batch with the window at the cursor, record
      a result for each line of the batch, and move the cursor. */
  function StepBatch(words: seq<Word>, dialogue: seq<Line>, llm: Llm, window: int, b: Batch,
                     st: State): State
    requires |words| > 0 && b.lo < b.hi <= |dialogue|
  {
    var reply := llm(WinStart(st.cursor), WinEnd(|words|, st.cursor, window), b.lo, b.hi);
    State(Recorded(words, dialogue, reply, st.results, b.lo, b.hi),
          NextCursor(words, dialogue, reply, b.lo, b.hi, st.cursor))
  }

  /** The batches hold lines of the dialogue. */
  predicate ValidBatches(batches: seq<Batch>, n: nat) {
    forall k :: 0 <= k < |batches| ==> batches[k].lo < batches[k].hi <= n
  }

  /** The state after the batches `batches`, in order. */
  function RunBatches(words: seq<Word>, dialogue: seq<Line>, llm: Llm, window: int,
                      batches: seq<Batch>, st: State): State
    requires |words| > 0 && ValidBatches(batches, |dialogue|)
    decreases |batches|
  {
    if batches == [] then st
    else RunBatches(words, dialogue, llm, window, batches[1..],
                    StepBatch(words, dialogue, llm, window, batches[0], st))
  }

  /** Every result a batch records describes its line. */
  lemma OutAtDescribes(words: seq<Word>, dialogue: seq<Line>, reply: Reply, i: nat)
    requires |words| > 0 && i < |dialogue|
    ensures Describes(words, dialogue[i], OutAt(words, dialogue, reply, i))
  {
    if reply.Mapping? {
      AnswerOutSpec(words, dialogue[i], AnswerAt(reply.answers, i));
    }
  }

  /** Line `k` of [lo, j) is the last one there whose answer is accepted. */
  predicate LastAccepted(words: seq<Word>, dialogue: seq<Line>, m: map<nat, Answer>,
                         lo: nat, j: nat, k: nat)
    requires |words| > 0 && j <= |dialogue|
  {
    && lo <= k < j && Accepts(|words|, dialogue[k], AnswerAt(m, k))
    && forall k' :: k < k' < j ==> !Accepts(|words|, dialogue[k'], AnswerAt(m, k'))
  }

  /** `last_matched_w_end` after lines [lo, j) is the cursor when none of them is
      accepted. */
  lemma {:induction false} LastEndNone(words: seq<Word>, dialogue: seq<Line>,
                                       m: map<nat, Answer>, lo: nat, j: nat, cursor: nat)
    requires |words| > 0 && lo <= j <= |dialogue|
    requires forall k :: lo <= k < j ==> !Accepts(|words|, dialogue[k], AnswerAt(m, k))
    ensures LastEnd(words, dialogue, m, lo, j, cursor) == cursor
    decreases j - lo
  {
    if j > lo {
      LastEndNone(words, dialogue, m, lo, j - 1, cursor);
    }
  }

  /** `last_matched_w_end` after lines [lo, j) is the clamped end of the span of the last
      accepted line among them. */
  lemma {:induction false} LastEndOfLast(words: seq<Word>, dialogue: seq<Line>,
                                         m: map<nat, Answer>, lo: nat, j: nat, cursor: nat, k: nat)
    requires |words| > 0 && lo <= j <= |dialogue|
    requires LastAccepted(words, dialogue, m, lo, j, k)
    ensures LastEnd(words, dialogue, m, lo, j, cursor) == SpanEnd(|words|, AnswerAt(m, k))
    decreases j - lo
  {
    if k < j - 1 {
      assert !Accepts(|words|, dialogue[j - 1], AnswerAt(m, j - 1));
      assert LastAccepted(words, dialogue, m, lo, j - 1, k);
      LastEndOfLast(words, dialogue, m, lo, j - 1, cursor, k);
    }
  }

  /** `last_matched_w_end` is the cursor, or the clamped end of an accepted span of the
      batch; either way it stays below the word count when the cursor does. */
  lemma {:induction false} LastEndIs(words: seq<Word>, dialogue: seq<Line>, m: map<nat, Answer>,
                                     lo: nat, j: nat, cursor: nat)
    requires |words| > 0 && lo <= j <= |dialogue|
    ensures var last := LastEnd(words, dialogue, m, lo, j, cursor);
      || last == cursor
      || (exists k :: lo <= k < j && Accepts(|words|, dialogue[k], AnswerAt(m, k))
                      && last == SpanEnd(|words|, AnswerAt(m, k)))
    ensures LastEnd(words, dialogue, m, lo, j, cursor) == cursor
            || LastEnd(words, dialogue, m, lo, j, cursor) < |words|
    decreases j - lo
  {
    if j > lo {
      LastEndIs(words, dialogue, m, lo, j - 1, cursor);
      if Accepts(|words|, dialogue[j - 1], AnswerAt(m, j - 1)) {
        ClampSpan(|words|, AnswerAt(m, j - 1));
      }
    }
  }

  /** `int(batch_frac * n_words)` never reaches past the word list: a < n gives
      (a * nw) / n <= nw. */
  lemma ScaledBelow(a: nat, n: nat, nw: nat)
    requires a < n
    ensures (a * nw) / n <= nw
  {
    var q := (a * nw) / n;
    assert q * n <= a * nw;
    assert a * nw <= n * nw;
    assert (q - nw) * n <= 0;
  }

  /** A batch never moves the cursor back, and keeps it within the word list. A failed
      request leaves it where it was. A reply that does not parse moves it up to the
      batch's share of the word list, (index of its last line) * n_words / n_lines, if
      that lies further on. After a reply that parses, the cursor stays when no line of
      the batch is accepted; otherwise it moves to one past the clamped end of the last
      accepted line's span when that end lies past the cursor, and stays when it does not. */
  lemma CursorStep(words: seq<Word>, dialogue: seq<Line>, reply: Reply, lo: nat, hi: nat,
                   cursor: nat)
    requires |words| > 0 && lo < hi <= |dialogue| && cursor <= |words|
    ensures var c := NextCursor(words, dialogue, reply, lo, hi, cursor);
      && cursor <= c <= |words|
      && (reply.ApiError? ==> c == cursor)
      && (reply.ParseError? ==> c == Max(cursor, ((hi - 1) * |words|) / |dialogue|))
      && (reply.Mapping? && c != cursor ==>
            exists k :: lo <= k < hi && Accepts(|words|, dialogue[k], AnswerAt(reply.answers, k))
                        && c == SpanEnd(|words|, AnswerAt(reply.answers, k)) + 1)
    ensures reply.Mapping? &&
      (forall k :: lo <= k < hi ==> !Accepts(|words|, dialogue[k], AnswerAt(reply.answers, k)))
      ==> NextCursor(words, dialogue, reply, lo, hi, cursor) == cursor
    ensures forall k :: reply.Mapping? && LastAccepted(words, dialogue, reply.answers, lo, hi, k) ==>
      var e := SpanEnd(|words|, AnswerAt(reply.answers, k));
      NextCursor(words, dialogue, reply, lo, hi, cursor) == if e > cursor then e + 1 else cursor
  {
    match reply
    case ApiError =>
    case ParseError =>
      ScaledBelow(hi - 1, |dialogue|, |words|);
    case Mapping(m) =>
      LastEndIs(words, dialogue, m, lo, hi, cursor);
      if forall k :: lo <= k < hi ==> !Accepts(|words|, dialogue[k], AnswerAt(m, k)) {
        LastEndNone(words, dialogue, m, lo, hi, cursor);
      }
      forall k: nat | LastAccepted(words, dialogue, m, lo, hi, k)
        ensures LastEnd(words, dialogue, m, lo, hi, cursor) == SpanEnd(|words|, AnswerAt(m, k))
      {
        LastEndOfLast(words, dialogue, m, lo, hi, cursor, k);
      }
  }

  /** After the batches from `i` on, starting from results for exactly the lines before
      `i`: there is exactly one result per line, each describes its line, and the cursor
      has only moved forward and stays within the word list. */
  lemma {:induction false} RunBatchesFrom(words: seq<Word>, dialogue: seq<Line>, llm: Llm,
                                          window: int, size: nat, i: nat, st: State)
    requires |words| > 0 && size > 0 && i <= |dialogue|
    requires forall k: nat :: k in st.results <==> k < i
    requires forall k: nat :: k < i ==> Describes(words, dialogue[k], st.results[k])
    requires st.cursor <= |words|
    ensures var st' := RunBatches(words, dialogue, llm, window,
                                  BatchesFrom(i, |dialogue|, size), st);
      && (forall k: nat :: k in st'.results <==> k < |dialogue|)
      && (forall k: nat :: k < |dialogue| ==> Describes(words, dialogue[k], st'.results[k]))
      && st.cursor <= st'.cursor <= |words|
    decreases |dialogue| - i
  {
    var n := |dialogue|;
    if i < n {
      var bs := BatchesFrom(i, n, size);
      var b := bs[0];
      assert bs[1..] == BatchesFrom(i + size, n, size);
      var reply := llm(WinStart(st.cursor), WinEnd(|words|, st.cursor, window), b.lo, b.hi);
      var next := StepBatch(words, dialogue, llm, window, b, st);
      CursorStep(words, dialogue, reply, b.lo, b.hi, st.cursor);
      RecordedSpec(words, dialogue, reply, st.results, b.lo, b.hi);
      forall k: nat | k < b.hi
        ensures k in next.results && Describes(words, dialogue[k], next.results[k])
      {
        if k >= i {
          OutAtDescribes(words, dialogue, reply, k);
        }
      }
      if b.hi < n {
        RunBatchesFrom(words, dialogue, llm, window, size, b.hi, next);
      } else {
        assert BatchesFrom(i + size, n, size) == [];
      }
    }
  }

  /** The batch loop as a whole: one result per line, each describing its line, and a
      cursor that ends within the word list. */
  lemma RunBatchesCovers(words: seq<Word>, dialogue: seq<Line>, llm: Llm, window: int, size: nat)
    requires |words| > 0 && size > 0
    ensures var st := RunBatches(words, dialogue, llm, window, Batches(|dialogue|, size),
                                 State(map[], 0));
      && (forall k: nat :: k in st.results <==> k < |dialogue|)
      && (forall k: nat :: k < |dialogue| ==> Describes(words, dialogue[k], st.results[k]))
      && st.cursor <= |words|
  {
    RunBatchesFrom(words, dialogue, llm, window, size, 0, State(map[], 0));
  }

  /** `[results[seg.idx] for seg in dialogue]`. */
  function Ordered(results: map<nat, OutSeg>, n: nat): (rs: seq<OutSeg>)
    requires forall i: nat :: i < n ==> i in results
    ensures |rs| == n
    ensures forall i :: 0 <= i < n ==> rs[i] == results[i]
  {
    seq(n, i requires 0 <= i < n => results[i])
  }

  /** What align_with_llm returns. */
  function LlmAligned(words: seq<Word>, dialogue: seq<Line>, llm: Llm, size: nat, window: int)
    : seq<OutSeg>
    requires |words| > 0 && size > 0
  {
    RunBatchesCovers(words, dialogue, llm, window, size);
    var st := RunBatches(words, dialogue, llm, window, Batches(|dialogue|, size), State(map[], 0));
    Interpolated(Ordered(st.results, |dialogue|))
  }

  /** align_with_llm with the model's replies given by `llm`. Like the command line, it
      needs at least one word and a positive batch size. */
  method AlignWithLlm(words: seq<Word>, dialogue: seq<Line>, llm: Llm, batchSize: nat,
                      window: int) returns (out: seq<OutSeg>)
    requires |words| > 0 && batchSize > 0
    ensures out == LlmAligned(words, dialogue, llm, batchSize, window)
  {
    var n := |dialogue|;
    var results, cursor := BatchLoop(words, dialogue, llm, batchSize, window);
    RunBatchesCovers(words, dialogue, llm, window, batchSize);
    var interpolated := InterpolateUnmatched(results, n);
    out := Collect(interpolated, n);
  }

  /** `[results[seg.idx] for seg in dialogue]`. */
  method Collect(results: map<nat, OutSeg>, n: nat) returns (out: seq<OutSeg>)
    requires forall i: nat :: i < n ==> i in results
    ensures out == Ordered(results, n)
  {
    out := [];
    for i := 0 to n
      invariant out == Ordered(results, i)
    {
      out := out + [results[i]];
    }
  }

  /** The batch loop of align_with_llm: the results and the cursor after every batch. */
  method BatchLoop(words: seq<Word>, dialogue: seq<Line>, llm: Llm, batchSize: nat, window: int)
    returns (results: map<nat, OutSeg>, cursor: nat)
    requires |words| > 0 && batchSize > 0
    ensures State(results, cursor)
      == RunBatches(words, dialogue, llm, window, Batches(|dialogue|, batchSize), State(map[], 0))
  {
    results := map[];
    cursor := 0;
    var batches := MakeBatches(|dialogue|, batchSize);
    for k := 0 to |batches|
      invariant RunBatches(words, dialogue, llm, window, batches[k..], State(results, cursor))
        == RunBatches(words, dialogue, llm, window, batches, State(map[], 0))
    {
      assert batches[k..][1..] == batches[k + 1..];
      results, cursor := ProcessBatch(words, dialogue, llm, window, batches[k], results, cursor);
    }
    assert batches[|batches|..] == [];
  }

  /** One pass of the batch loop. */
  method ProcessBatch(words: seq<Word>, dialogue: seq<Line>, llm: Llm, window: int, b: Batch,
                      results: map<nat, OutSeg>, cursor: nat)
    returns (results': map<nat, OutSeg>, cursor': nat)
    requires |words| > 0 && b.lo < b.hi <= |dialogue|
    ensures State(results', cursor') == StepBatch(words, dialogue, llm, window, b, State(results, cursor))
  {
    var nw := |words|;
    var winStart := Max(0, cursor - ContextWords);
    var winEnd := Min(nw, winStart + window);
    var reply := llm(winStart, winEnd, b.lo, b.hi);
    match reply
    case ApiError =>
      results' := MarkUnmatched(words, dialogue, reply, b.lo, b.hi, results);
      cursor' := cursor;
    case ParseError =>
      results' := MarkUnmatched(words, dialogue, reply, b.lo, b.hi, results);
      cursor' := Max(cursor, ((b.hi - 1) * nw) / |dialogue|);
    case Mapping(m) =>
      var last;
      results', last := MatchBatch(words, dialogue, m, b.lo, b.hi, results, cursor);
      cursor' := cursor;
      if last > cursor {
        cursor' := last + 1;
      }
  }

  /** A failed batch: every line of it unmatched. */
  method MarkUnmatched(words: seq<Word>, dialogue: seq<Line>, reply: Reply, lo: nat, hi: nat,
                       results: map<nat, OutSeg>) returns (results': map<nat, OutSeg>)
    requires |words| > 0 && lo <= hi <= |dialogue| && !reply.Mapping?
    ensures results' == Recorded(words, dialogue, reply, results, lo, hi)
  {
    results' := results;
    for i := lo to hi
      invariant results' == Recorded(words, dialogue, reply, results, lo, i)
    {
      results' := results'[i := UnmatchedSeg(dialogue[i])];
    }
  }

  /** A parsed batch: each line's answer looked up, clamped and checked in turn. */
  method MatchBatch(words: seq<Word>, dialogue: seq<Line>, m: map<nat, Answer>, lo: nat, hi: nat,
                    results: map<nat, OutSeg>, cursor: nat)
    returns (results': map<nat, OutSeg>, last: nat)
    requires |words| > 0 && lo <= hi <= |dialogue|
    ensures results' == Recorded(words, dialogue, Mapping(m), results, lo, hi)
    ensures last == LastEnd(words, dialogue, m, lo, hi, cursor)
  {
    results' := results;
    last := cursor;
    for i := lo to hi
      invariant results' == Recorded(words, dialogue, Mapping(m), results, lo, i)
      invariant last == LastEnd(words, dialogue, m, lo, i, cursor)
    {
      var answer := AnswerAt(m, i);
      var out, accepted := MatchLine(words, dialogue[i], answer);
      results' := results'[i := out];
      if accepted {
        last := out.wEnd;
      }
    }
  }

  /** The body of the per-line loop: a missing or malformed answer leaves the line
      unmatched; a span is clamped, and recorded only when it is not too wide. */
  method MatchLine(words: seq<Word>, line: Line, answer: Answer)
    returns (out: OutSeg, accepted: bool)
    requires |words| > 0
    ensures out == AnswerOut(words, line, answer)
    ensures accepted == Accepts(|words|, line, answer)
    ensures accepted ==> out.wEnd == SpanEnd(|words|, answer)
  {
    var nw := |words|;
    if !answer.Span? {
      return UnmatchedSeg(line), false;
    }
    var wStart := Max(0, Min(answer.wStart, nw - 1));
    var wEnd := Max(wStart, Min(answer.wEnd, nw - 1));
    var spanWords := wEnd - wStart + 1;
    var dialogueWords := |Split(line.text)|;
    var maxAllowedSpan := Max(MinSpanCap, dialogueWords * SpanFactor);
    if spanWords > maxAllowedSpan {
      return UnmatchedSeg(line), false;
    }
    out := OutSeg(line.text, line.speaker, line.translation,
                  words[wStart].start, words[wEnd].end, true, wStart, wEnd);
    accepted := true;
  }

  // ---------------------------------------------------------------------------
  // _interpolate_unmatched (the LLM back end's variant)
  // ---------------------------------------------------------------------------

  /** The `_matched` flags of the results. */
  function OutFlags(rs: seq<OutSeg>): (f: seq<bool>)
    ensures |f| == |rs|
    ensures forall i :: 0 <= i < |rs| ==> f[i] == rs[i].matched
  {
    seq(|rs|, i requires 0 <= i < |rs| => rs[i].matched)
  }

  /** The times, before clamping at 0, of position `p` of an unmatched run of `runLen`
      lines with a matched neighbour: with anchors on both sides in order (the previous
      one ending at t0, the next one starting at t1 > t0), the first runLen of runLen + 1
      equal slices of [t0, t1]; otherwise 2-second slots after t0 when there is a previous
      anchor, or 2-second slots ending at t1 when there is only a next one. */
  function Slot(hasPrev: bool, t0: real, hasNext: bool, t1: real, runLen: nat, p: nat): (real, real)
  {
    if hasPrev && hasNext && t1 > t0 then
      var span := (t1 - t0) / (runLen + 1) as real;
      (t0 + p as real * span, t0 + (p + 1) as real * span)
    else if hasPrev then
      var start := t0 + p as real * SlotLength;
      (start, start + SlotLength)
    else
      var start := t1 - (runLen - p) as real * SlotLength;
      (start, start + SlotLength)
  }

  /** Slot `p` of the maximal unmatched run [s, e) of the results. */
  function RunSlot(rs: seq<OutSeg>, s: nat, e: nat, p: nat): (real, real)
    requires s <= e <= |rs|
  {
    Slot(s > 0, if s > 0 then rs[s - 1].end else 0.0,
         e < |rs|, if e < |rs| then rs[e].start else 0.0, e - s, p)
  }

  /** Result `i` after interpolation: a matched one is kept, and so is an unmatched one
      whose run has no matched neighbour; the others take their run's slot, clamped at 0. */
  function InterpAt(rs: seq<OutSeg>, i: nat): OutSeg
    requires i < |rs|
  {
    if rs[i].matched then rs[i]
    else
      var f := OutFlags(rs);
      var s := RunStart(f, i);
      var e := RunEnd(f, i);
      if s == 0 && e == |rs| then rs[i]
      else
        var slot := RunSlot(rs, s, e, i - s);
        rs[i].(start := MaxReal(0.0, slot.0), end := MaxReal(0.0, slot.1))
  }

  /** The results after _interpolate_unmatched. */
  function Interpolated(rs: seq<OutSeg>): (r: seq<OutSeg>)
    ensures |r| == |rs|
  {
    seq(|rs|, i requires 0 <= i < |rs| => InterpAt(rs, i))
  }

  /** Entry `i` of the maximal unmatched run [s, e), which has a matched neighbour. */
  lemma SlotAt(rs: seq<OutSeg>, s: nat, e: nat, i: nat)
    requires IsRun(OutFlags(rs), s, e) && s <= i < e && (s > 0 || e < |rs|)
    ensures Interpolated(rs)[i] == InSlot(rs, s, e, i)
  {
    RunOf(OutFlags(rs), s, e, i);
    assert Interpolated(rs)[i] == InterpAt(rs, i);
  }

  /** Result `i` of the run [s, e) placed in its slot, clamped at 0. */
  function InSlot(rs: seq<OutSeg>, s: nat, e: nat, i: nat): OutSeg
    requires s <= i < e <= |rs|
  {
    var slot := RunSlot(rs, s, e, i - s);
    rs[i].(start := MaxReal(0.0, slot.0), end := MaxReal(0.0, slot.1))
  }

  /** A matched result, or one in a run with no matched neighbour, is kept. */
  lemma KeptAt(rs: seq<OutSeg>, i: nat)
    requires i < |rs|
    requires rs[i].matched || (forall k :: 0 <= k < |rs| ==> !rs[k].matched)
    ensures Interpolated(rs)[i] == rs[i]
  {
    assert Interpolated(rs)[i] == InterpAt(rs, i);
    if !rs[i].matched {
      var f := OutFlags(rs);
      assert RunStart(f, i) == 0 && RunEnd(f, i) == |rs|;
    }
  }

  /** Interpolation changes only the times of unmatched results: matched ones are kept,
      and when no line is matched at all nothing changes. */
  lemma InterpolateKeeps(rs: seq<OutSeg>)
    ensures var r := Interpolated(rs);
      && (forall i :: 0 <= i < |rs| ==> r[i] == rs[i].(start := r[i].start, end := r[i].end))
      && (forall i :: 0 <= i < |rs| && rs[i].matched ==> r[i] == rs[i])
      && ((forall i :: 0 <= i < |rs| ==> !rs[i].matched) ==> r == rs)
  {
    var r := Interpolated(rs);
    forall i | 0 <= i < |rs|
      ensures r[i] == rs[i].(start := r[i].start, end := r[i].end)
      ensures (forall k :: 0 <= k < |rs| ==> !rs[k].matched) ==> r[i] == rs[i]
    {
      assert r[i] == InterpAt(rs, i);
    }
  }

  /** An unmatched result gets non-negative times once some line is matched. */
  lemma InterpolateNonNegative(rs: seq<OutSeg>, i: nat, k: nat)
    requires i < |rs| && k < |rs| && !rs[i].matched && rs[k].matched
    ensures Interpolated(rs)[i].start >= 0.0 && Interpolated(rs)[i].end >= 0.0
  {
    var f := OutFlags(rs);
    assert f[k];
    assert Interpolated(rs)[i] == InterpAt(rs, i);
  }

  /** Slot `p` between anchors t0 >= 0 and t1 > t0 lies after 0, so clamping keeps it. */
  lemma SlotBetween(t0: real, t1: real, runLen: nat, p: nat)
    requires 0.0 <= t0 < t1
    ensures var span := (t1 - t0) / (runLen + 1) as real;
      var slot := Slot(true, t0, true, t1, runLen, p);
      && slot == (t0 + p as real * span, t0 + (p + 1) as real * span)
      && MaxReal(0.0, slot.0) == slot.0 && MaxReal(0.0, slot.1) == slot.1
  {
    var span := (t1 - t0) / (runLen + 1) as real;
    assert span > 0.0;
    NonNegativeScale(p, span);
    NonNegativeScale(p + 1, span);
  }

  /** Position i - s of the run [s, e) between two anchors in order, with t0 >= 0. */
  lemma BetweenAt(rs: seq<OutSeg>, s: nat, e: nat, i: nat)
    requires 0 < s <= i < e < |rs| && 0.0 <= rs[s - 1].end < rs[e].start
    ensures InSlot(rs, s, e, i).start == rs[s - 1].end + (i - s) as real * Slice(rs, s, e)
    ensures InSlot(rs, s, e, i).end == rs[s - 1].end + (i - s + 1) as real * Slice(rs, s, e)
  {
    SlotBetween(rs[s - 1].end, rs[e].start, e - s, i - s);
  }

  /** The slice length between the anchors of the run [s, e): (t1 - t0) / (L + 1). */
  function Slice(rs: seq<OutSeg>, s: nat, e: nat): real
    requires 0 < s <= e < |rs|
  {
    (rs[e].start - rs[s - 1].end) / (e - s + 1) as real
  }

  /** Between two matched anchors in order, the L unmatched lines take the first L of L + 1
      equal slices of [t0, t1]: each takes its slot, the first starts at t0, each ends
      where the next starts, each lasts (t1 - t0) / (L + 1), and the last ends one slice
      before t1. */
  lemma InterpolateBetween(rs: seq<OutSeg>, s: nat, e: nat)
    requires IsRun(OutFlags(rs), s, e) && 0 < s && e < |rs|
    requires 0.0 <= rs[s - 1].end < rs[e].start
    ensures forall i :: s <= i < e ==> Interpolated(rs)[i] == InSlot(rs, s, e, i)
    ensures InSlot(rs, s, e, s).start == rs[s - 1].end
    ensures forall i :: s <= i < e - 1 ==> InSlot(rs, s, e, i).end == InSlot(rs, s, e, i + 1).start
    ensures forall i :: s <= i < e ==>
      InSlot(rs, s, e, i).end - InSlot(rs, s, e, i).start == Slice(rs, s, e)
    ensures InSlot(rs, s, e, e - 1).end + Slice(rs, s, e) == rs[e].start
  {
    forall i | s <= i < e
      ensures Interpolated(rs)[i] == InSlot(rs, s, e, i)
    {
      SlotAt(rs, s, e, i);
    }
    SlotsBetween(rs, s, e);
  }

  /** The slots between two anchors in order tile [t0, t1 - (t1 - t0) / (L + 1)]. */
  lemma SlotsBetween(rs: seq<OutSeg>, s: nat, e: nat)
    requires 0 < s < e < |rs| && 0.0 <= rs[s - 1].end < rs[e].start
    ensures InSlot(rs, s, e, s).start == rs[s - 1].end
    ensures forall i :: s <= i < e - 1 ==> InSlot(rs, s, e, i).end == InSlot(rs, s, e, i + 1).start
    ensures forall i :: s <= i < e ==>
      InSlot(rs, s, e, i).end - InSlot(rs, s, e, i).start == Slice(rs, s, e)
    ensures InSlot(rs, s, e, e - 1).end + Slice(rs, s, e) == rs[e].start
  {
    forall i | s <= i < e
      ensures InSlot(rs, s, e, i).end - InSlot(rs, s, e, i).start == Slice(rs, s, e)
      ensures i < e - 1 ==> InSlot(rs, s, e, i).end == InSlot(rs, s, e, i + 1).start
    {
      BetweenStep(rs, s, e, i);
    }
    BetweenAt(rs, s, e, s);
    BetweenLast(rs, s, e);
  }

  /** Slot i - s of the run between anchors in order lasts one slice and ends where the
      next slot starts. */
  lemma BetweenStep(rs: seq<OutSeg>, s: nat, e: nat, i: nat)
    requires 0 < s <= i < e < |rs| && 0.0 <= rs[s - 1].end < rs[e].start
    ensures InSlot(rs, s, e, i).end - InSlot(rs, s, e, i).start == Slice(rs, s, e)
    ensures i < e - 1 ==> InSlot(rs, s, e, i).end == InSlot(rs, s, e, i + 1).start
  {
    var span := Slice(rs, s, e);
    BetweenAt(rs, s, e, i);
    if i < e - 1 {
      BetweenAt(rs, s, e, i + 1);
    }
    assert (i - s + 1) as real * span == (i - s) as real * span + span;
  }

  /** The last slot of the run between anchors in order ends one slice before t1. */
  lemma BetweenLast(rs: seq<OutSeg>, s: nat, e: nat)
    requires 0 < s < e < |rs| && 0.0 <= rs[s - 1].end < rs[e].start
    ensures InSlot(rs, s, e, e - 1).end + Slice(rs, s, e) == rs[e].start
  {
    BetweenAt(rs, s, e, e - 1);
    LastSlice(rs[s - 1].end, rs[e].start, e - s);
  }

  /** L slices of (t1 - t0) / (L + 1) and one more make up [t0, t1]. */
  lemma LastSlice(t0: real, t1: real, len: nat)
    ensures var d := (t1 - t0) / (len + 1) as real;
      t0 + len as real * d + d == t1
  {
    var d := (t1 - t0) / (len + 1) as real;
    assert (len + 1) as real * d == t1 - t0;
    assert len as real * d + d == (len + 1) as real * d;
  }

  /** k * d is not negative for a non-negative d. */
  lemma NonNegativeScale(k: nat, d: real)
    requires d >= 0.0
    ensures k as real * d >= 0.0
  {
  }

  /** With only a previous anchor at t0 >= 0, or with anchors out of order, the run takes
      consecutive 2-second slots from t0. */
  lemma InterpolateAfter(rs: seq<OutSeg>, s: nat, e: nat)
    requires IsRun(OutFlags(rs), s, e) && 0 < s && rs[s - 1].end >= 0.0
    requires e == |rs| || rs[e].start <= rs[s - 1].end
    ensures var r := Interpolated(rs);
      forall i :: s <= i < e ==>
        r[i].start == rs[s - 1].end + (i - s) as real * SlotLength
        && r[i].end == r[i].start + SlotLength
  {
    var r := Interpolated(rs);
    forall i | s <= i < e
      ensures r[i].start == rs[s - 1].end + (i - s) as real * SlotLength
      ensures r[i].end == r[i].start + SlotLength
    {
      SlotAt(rs, s, e, i);
    }
  }

  /** With only a next anchor at t1, far enough from 0, the run takes consecutive
      2-second slots ending exactly at t1. */
  lemma InterpolateBefore(rs: seq<OutSeg>, e: nat)
    requires IsRun(OutFlags(rs), 0, e) && e < |rs|
    requires rs[e].start >= (e as real) * SlotLength
    ensures var r := Interpolated(rs);
      && (forall i :: 0 <= i < e ==>
            r[i].start == rs[e].start - (e - i) as real * SlotLength
            && r[i].end == r[i].start + SlotLength)
      && r[e - 1].end == rs[e].start
  {
    var r := Interpolated(rs);
    forall i | 0 <= i < e
      ensures r[i].start == rs[e].start - (e - i) as real * SlotLength
      ensures r[i].end == r[i].start + SlotLength
    {
      SlotAt(rs, 0, e, i);
      assert (e - i) as real <= e as real;
    }
  }

  /** With only a next anchor at a non-negative t1, the run's last line ends exactly at
      t1 even when the slots before it are clamped at 0, and every line of the run lies
      in [0, t1]. */
  lemma InterpolateBeforeEnd(rs: seq<OutSeg>, e: nat)
    requires IsRun(OutFlags(rs), 0, e) && 0 < e < |rs|
    requires rs[e].start >= 0.0
    ensures var r := Interpolated(rs);
      && r[e - 1].end == rs[e].start
      && forall i :: 0 <= i < e ==> 0.0 <= r[i].start <= r[i].end <= rs[e].start
  {
    var r := Interpolated(rs);
    SlotAt(rs, 0, e, e - 1);
    forall i | 0 <= i < e
      ensures 0.0 <= r[i].start <= r[i].end <= rs[e].start
    {
      SlotAt(rs, 0, e, i);
    }
  }

  /** _interpolate_unmatched over the results dictionary, which holds every line. */
  method InterpolateUnmatched(results: map<nat, OutSeg>, n: nat) returns (r: map<nat, OutSeg>)
    requires forall i: nat :: i < n ==> i in results
    ensures r.Keys == results.Keys
    ensures Ordered(r, n) == Interpolated(Ordered(results, n))
    ensures forall i :: i in results && i >= n ==> r[i] == results[i]
  {
    ghost var rs := Ordered(results, n);
    r := results;
    var i := 0;
    while i < n
      invariant 0 <= i <= n
      invariant i < n && !rs[i].matched ==> i == 0 || rs[i - 1].matched
      invariant r.Keys == results.Keys
      invariant forall k :: 0 <= k < i ==> r[k] == Interpolated(rs)[k]
      invariant forall k :: i <= k < n ==> r[k] == rs[k]
      invariant forall k :: k in results && k >= n ==> r[k] == results[k]
    {
      if r[i].matched {
        KeptAt(rs, i);
        i := i + 1;
        continue;
      }
      if i > 0 {
        KeptAt(rs, i - 1);
      }
      r, i := InterpolateRunFrom(r, rs, n, i);
    }
  }

  /** One pass of the outer loop of _interpolate_unmatched from the unmatched result `s`,
      which starts a run: scan to the run's end `e` and place the run [s, e) in its slots
      unless it has no matched neighbour. */
  method InterpolateRunFrom(r0: map<nat, OutSeg>, ghost rs: seq<OutSeg>, n: nat, s: nat)
    returns (r: map<nat, OutSeg>, e: nat)
    requires |rs| == n && s < n && !rs[s].matched && (s == 0 || rs[s - 1].matched)
    requires forall k: nat :: k < n ==> k in r0
    requires s > 0 ==> r0[s - 1] == rs[s - 1]
    requires forall k :: s <= k < n ==> r0[k] == rs[k]
    ensures s < e <= n && (e == n || rs[e].matched)
    ensures r.Keys == r0.Keys
    ensures forall k :: k in r0 && !(s <= k < e) ==> r[k] == r0[k]
    ensures forall k :: s <= k < e ==> r[k] == Interpolated(rs)[k]
  {
    e := s;
    while e < n && !r0[e].matched
      invariant s <= e <= n
      invariant forall k :: s <= k < e ==> !rs[k].matched
    {
      e := e + 1;
    }
    assert IsRun(OutFlags(rs), s, e);
    if s == 0 && e == n {
      r := r0;
      forall k | s <= k < e
        ensures r[k] == Interpolated(rs)[k]
      {
        KeptAt(rs, k);
      }
      return;
    }
    r := InterpolateRun(r0, rs, n, s, e);
    forall k | s <= k < e
      ensures r[k] == Interpolated(rs)[k]
    {
      SlotAt(rs, s, e, k);
    }
  }

  /** The inner loop of _interpolate_unmatched: the results of the run [s, e) take their
      slots. */
  method InterpolateRun(r0: map<nat, OutSeg>, ghost rs: seq<OutSeg>, n: nat, s: nat, e: nat)
    returns (r: map<nat, OutSeg>)
    requires |rs| == n && s < e <= n
    requires forall k: nat :: k < |rs| ==> k in r0
    requires s > 0 ==> r0[s - 1] == rs[s - 1]
    requires forall k :: s <= k < |rs| ==> r0[k] == rs[k]
    ensures r.Keys == r0.Keys
    ensures forall k :: k in r0 && !(s <= k < e) ==> r[k] == r0[k]
    ensures forall k :: s <= k < e ==> r[k] == InSlot(rs, s, e, k)
  {
    var t0 := if s > 0 then r0[s - 1].end else 0.0;
    var t1 := if e < n then r0[e].start else 0.0;
    r := r0;
    for j := s to e
      invariant r.Keys == r0.Keys
      invariant forall k :: k in r0 && !(s <= k < j) ==> r[k] == r0[k]
      invariant forall k :: s <= k < j ==> r[k] == InSlot(rs, s, e, k)
    {
      r := PlaceSlot(r, rs, n, s, e, j, t0, t1);
    }
  }

  /** One pass of the inner loop of _interpolate_unmatched: result `j` of the run [s, e)
      takes its slot between the anchor times t0 and t1. */
  method PlaceSlot(r0: map<nat, OutSeg>, ghost rs: seq<OutSeg>, n: nat, s: nat, e: nat, j: nat,
                   t0: real, t1: real)
    returns (r: map<nat, OutSeg>)
    requires |rs| == n && s <= j < e <= n && j in r0 && r0[j] == rs[j]
    requires t0 == (if s > 0 then rs[s - 1].end else 0.0)
    requires t1 == (if e < n then rs[e].start else 0.0)
    ensures r == r0[j := InSlot(rs, s, e, j)]
  {
    var startSec, endSec := SlotTimes(s > 0, t0, e < n, t1, e - s, j - s);
    r := r0[j := r0[j].(start := MaxReal(0.0, startSec), end := MaxReal(0.0, endSec))];
  }

  /** The branches of the inner loop of _interpolate_unmatched for position `pos`. */
  method SlotTimes(hasPrev: bool, t0: real, hasNext: bool, t1: real, runLen: nat, pos: nat)
    returns (startSec: real, endSec: real)
    ensures (startSec, endSec) == Slot(hasPrev, t0, hasNext, t1, runLen, pos)
  {
    if hasPrev && hasNext {
      if t1 > t0 {
        var span := (t1 - t0) / (runLen + 1) as real;
        startSec := t0 + pos as real * span;
        endSec := t0 + (pos + 1) as real * span;
      } else {
        startSec := t0 + pos as real * SlotLength;
        endSec := startSec + SlotLength;
      }
    } else if hasPrev {
      startSec := t0 + pos as real * SlotLength;
      endSec := startSec + SlotLength;
    } else {
      startSec := t1 - (runLen - pos) as real * SlotLength;
      endSec := startSec + SlotLength;
    }
  }
}
