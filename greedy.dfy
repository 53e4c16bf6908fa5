/** The two greedy passes of scripts/align_whisper.py as functions of their inputs: pass 1
    (the cursor-driven window search of align and _quick_greedy_align) and pass 2 (the
    bounded re-scan of the lines pass 1 left unmatched).

    Both passes are written over the decision they take for one line, passed in as a
    function: pass 1 over the window search (`pick`), pass 2 over the refill of one entry
    (`fill`). Pass1 and Pass2 instantiate them with the decisions align takes (PickAt and
    RefillSeg); the bookkeeping lemmas hold for every sound decision. */
module Greedy {
  import opened Text
  import opened Fuzzy
  import opened Runs
  import opened Segments
  import opened Window
  import opened WindowProofs

  /** SEARCH_WINDOW: how many words past the cursor pass 1 looks at. */
  const SearchWindow: nat := 3000
  /** MATCH_THRESHOLD: the least F1 score that counts as a match. */
  const MatchThreshold: real := 0.35

  /** The number of reference words of a line: len(normalize_text(text)). */
  function WordCount(text: string): nat {
    |NormalizeText(text)|
  }

  // ---------------------------------------------------------------------------
  // Pass 1 (align) and _quick_greedy_align
  // ---------------------------------------------------------------------------

  /** What the window search decides for one line: the line's reference word count `n`,
      and the score and start of the best window. */
  datatype Pick = Pick(n: nat, score: real, start: nat)

  /** A decision pass 1 can act on: the score lies in [0, 1] and, when the line has words
      and the score reaches the threshold, the `n` words from `start` lie inside the list
      at or after the cursor. */
  predicate Sound(p: Pick, words: seq<Word>, cursor: nat) {
    && 0.0 <= p.score <= 1.0
    && (p.n > 0 && p.score >= MatchThreshold ==> cursor <= p.start && p.start + p.n <= |words|)
  }

  /** Pass 1's decision for `line` with the cursor at `cursor`: no search for a line without
      reference words, otherwise _best_match_in_range over
      [cursor, min(cursor + SEARCH_WINDOW, |words|)). */
  function PickAt(sim: Sim, words: seq<Word>, line: Line, cursor: nat): Pick {
    var refs := NormalizeText(line.text);
    if refs == [] then Pick(0, 0.0, cursor)
    else
      var (s, b) := BestMatch(sim, refs, words, cursor, Min(cursor + SearchWindow, |words|));
      Pick(|refs|, s, b)
  }

  /** Pass 1's decision once the window search over [cursor, min(cursor + SEARCH_WINDOW,
      |words|)) has returned `(s, b)` for a line with reference words: the line's word
      count, that score and that start. */
  lemma PickAtFound(sim: Sim, words: seq<Word>, line: Line, cursor: nat, s: real, b: nat)
    requires NormalizeText(line.text) != []
    requires (s, b) == BestMatch(sim, NormalizeText(line.text), words, cursor,
                                 Min(cursor + SearchWindow, |words|))
    ensures PickAt(sim, words, line, cursor) == Pick(WordCount(line.text), s, b)
  {
  }

  /** Pass 1's decision for a line without reference words: no search, score 0. */
  lemma PickAtEmpty(sim: Sim, words: seq<Word>, line: Line, cursor: nat)
    requires NormalizeText(line.text) == []
    ensures PickAt(sim, words, line, cursor) == Pick(0, 0.0, cursor)
  {
  }

  /** `pick` decides soundly for every line and cursor. */
  ghost predicate SoundPicks(pick: (seq<Word>, Line, nat) -> Pick, words: seq<Word>) {
    forall line, cursor: nat :: Sound(pick(words, line, cursor), words, cursor)
  }

  /** PickAt with similarity test `sim`, as a decision pass 1 can take. */
  function PickBy(sim: Sim): (seq<Word>, Line, nat) -> Pick {
    (words, line, cursor: nat) => PickAt(sim, words, line, cursor)
  }

  /** The window search of pass 1 for one line is sound, and counts the line's reference
      words. */
  lemma PickAtSoundAt(sim: Sim, words: seq<Word>, line: Line, cursor: nat)
    ensures Sound(PickAt(sim, words, line, cursor), words, cursor)
    ensures PickAt(sim, words, line, cursor).n == WordCount(line.text)
  {
    var refs := NormalizeText(line.text);
    if refs != [] {
      BestMatchBounds(sim, refs, words, cursor, Min(cursor + SearchWindow, |words|));
    }
  }

  /** The window search of pass 1 is sound, and counts the line's reference words. */
  lemma PickAtSound(sim: Sim, words: seq<Word>)
    ensures forall line, cursor: nat ::
      Sound(PickAt(sim, words, line, cursor), words, cursor)
      && PickAt(sim, words, line, cursor).n == WordCount(line.text)
    ensures SoundPicks(PickBy(sim), words)
  {
    forall line, cursor: nat
      ensures Sound(PickAt(sim, words, line, cursor), words, cursor)
      ensures PickAt(sim, words, line, cursor).n == WordCount(line.text)
    {
      PickAtSoundAt(sim, words, line, cursor);
    }
  }

  /** The times an unmatched line keeps: its own startTime/endTime in align, 0.0 in
      _quick_greedy_align. */
  function Placeholder(line: Line, quick: bool): (real, real) {
    if quick then (0.0, 0.0) else (line.startTime, line.endTime)
  }

  /** One pass-1 step on decision `p`: the segment for `line`, and the cursor after it. */
  function Step(line: Line, p: Pick, words: seq<Word>, cursor: nat, quick: bool): (Seg, nat)
    requires Sound(p, words, cursor)
  {
    var (ps, pe) := Placeholder(line, quick);
    if p.n == 0 then (Unmatched(line, ps, pe, 0.0), cursor)
    else if p.score >= MatchThreshold then
      var e := p.start + p.n - 1;
      (Seg(line.text, line.speaker, line.translation, words[p.start].start, words[e].end,
           true, p.score, p.start, e),
       e + 1)
    else (Unmatched(line, ps, pe, p.score), cursor)
  }

  /** Pass 1 over `dialogue` from cursor `cursor`, deciding each line with `pick`. */
  function Pass1With(dialogue: seq<Line>, words: seq<Word>, cursor: nat, quick: bool,
                     pick: (seq<Word>, Line, nat) -> Pick): seq<Seg>
    requires SoundPicks(pick, words)
  {
    if dialogue == [] then []
    else
      var (seg, next) := Step(dialogue[0], pick(words, dialogue[0], cursor), words, cursor, quick);
      [seg] + Pass1With(dialogue[1..], words, next, quick, pick)
  }

  /** The results of pass 1 of align (`quick` false) or of _quick_greedy_align (`quick` true). */
  function Pass1(sim: Sim, dialogue: seq<Line>, words: seq<Word>, quick: bool): seq<Seg> {
    PickAtSound(sim, words);
    Pass1With(dialogue, words, 0, quick, PickBy(sim))
  }

  /** Segment `seg` is the pass-1 result for `line`: it carries the line's text, speaker and
      translation; it is matched iff its score reaches 0.35, and its score lies in [0, 1];
      unmatched, it keeps the placeholder times and no span. */
  predicate KeepsLine(seg: Seg, line: Line, quick: bool) {
    && seg.text == line.text && seg.speaker == line.speaker
    && seg.translation == line.translation
    && (seg.matched <==> seg.score >= MatchThreshold)
    && 0.0 <= seg.score <= 1.0
    && (!seg.matched ==>
          (seg.start, seg.end) == Placeholder(line, quick)
          && seg.wordStart == -1 && seg.wordEnd == -1)
  }

  /** A matched segment for a line of `n` reference words covers words [ws, ws + n - 1]
      of the list, at or after `cursor`, and takes the first word's start and the last
      word's end. */
  predicate SpanFrom(seg: Seg, n: nat, words: seq<Word>, cursor: nat) {
    seg.matched ==>
      && cursor <= seg.wordStart && seg.wordEnd == seg.wordStart + n - 1
      && seg.wordStart <= seg.wordEnd < |words|
      && seg.start == words[seg.wordStart].start && seg.end == words[seg.wordEnd].end
  }

  // ---------------------------------------------------------------------------
  // Pass 2: fill unmatched lines inside bounded regions
  // ---------------------------------------------------------------------------

  /** `prev_word_end`: one past the span of the nearest matched entry before `i`, or 0. */
  function PrevWordEnd(rs: seq<Seg>, i: nat, nw: nat): (p: int)
    requires i <= |rs| && SpansIn(rs, nw)
    ensures 0 <= p <= nw
  {
    var s := RunStart(Flags(rs), i);
    if s == 0 then 0 else rs[s - 1].wordEnd + 1
  }

  /** `next_word_start`: the span start of the nearest matched entry after `i`, or `nw`. */
  function NextWordStart(rs: seq<Seg>, i: nat, nw: nat): (q: int)
    requires i < |rs| && SpansIn(rs, nw)
    ensures 0 <= q <= nw
  {
    var e := RunEnd(Flags(rs), i + 1);
    if e == |rs| then nw else rs[e].wordStart
  }

  /** Pass 2 on one entry, given its `prev_word_end` `p` and `next_word_start` `q`. Only an
      unmatched line with words, and with p < q, can change: it becomes matched with a
      score of at least 0.35 and a span of its word count that starts in [p, q), lies
      inside the word list and takes its words' times; everything else about it is kept. */
  function RefillSeg(sim: Sim, words: seq<Word>, seg: Seg, p: nat, q: int): (r: Seg)
    ensures seg.matched || WordCount(seg.text) == 0 || p >= q ==> r == seg
    ensures r != seg ==>
      && r.matched && r.score >= MatchThreshold
      && p <= r.wordStart < q
      && r.wordEnd == r.wordStart + WordCount(seg.text) - 1 && r.wordEnd < |words|
      && r.start == words[r.wordStart].start && r.end == words[r.wordEnd].end
      && r == seg.(start := r.start, end := r.end, matched := true, score := r.score,
                   wordStart := r.wordStart, wordEnd := r.wordEnd)
  {
    var refs := NormalizeText(seg.text);
    var n := |refs|;
    if seg.matched || n == 0 || p >= q then seg
    else
      var (s, b) := BestMatch(sim, refs, words, p, q);
      BestMatchBounds(sim, refs, words, p, q);
      if s >= MatchThreshold && b + n <= |words| then
        seg.(start := words[b].start, end := words[b + n - 1].end, matched := true,
             score := s, wordStart := b, wordEnd := b + n - 1)
      else seg
  }

  /** `fill` keeps every well-formed span well-formed. */
  ghost predicate SoundFill(fill: (seq<Word>, Seg, nat, int) -> Seg, words: seq<Word>) {
    forall seg, p: nat, q :: SpanOk(seg, |words|) ==> SpanOk(fill(words, seg, p, q), |words|)
  }

  /** RefillSeg with similarity test `sim`, as a refill pass 2 can apply. */
  function RefillBy(sim: Sim): (seq<Word>, Seg, nat, int) -> Seg {
    (words, seg, p: nat, q) => RefillSeg(sim, words, seg, p, q)
  }

  lemma RefillSound(sim: Sim, words: seq<Word>)
    ensures SoundFill(RefillBy(sim), words)
  {
    forall seg, p: nat, q | SpanOk(seg, |words|)
      ensures SpanOk(RefillSeg(sim, words, seg, p, q), |words|)
    {
      var r := RefillSeg(sim, words, seg, p, q);
      if r != seg {
        assert WordCount(seg.text) > 0;
      }
    }
  }

  /** Pass 2 from entry `i` on, refilling each entry with `fill`; each entry sees the
      updates made to the entries before it. Spans stay inside the word list. */
  function Pass2With(rs: seq<Seg>, words: seq<Word>, i: nat,
                     fill: (seq<Word>, Seg, nat, int) -> Seg): (r: seq<Seg>)
    requires i <= |rs| && SpansIn(rs, |words|) && SoundFill(fill, words)
    ensures |r| == |rs| && SpansIn(r, |words|)
    decreases |rs| - i
  {
    if i == |rs| then rs
    else
      var seg := fill(words, rs[i], PrevWordEnd(rs, i, |words|), NextWordStart(rs, i, |words|));
      Pass2With(rs[i := seg], words, i + 1, fill)
  }

  /** The results of pass 2 of align over the pass-1 results `rs`. */
  function Pass2(sim: Sim, rs: seq<Seg>, words: seq<Word>): seq<Seg>
    requires SpansIn(rs, |words|)
  {
    RefillSound(sim, words);
    Pass2With(rs, words, 0, RefillBy(sim))
  }
}

/** What the two passes promise. */
module GreedyProofs {
  import opened Fuzzy
  import opened Runs
  import opened Segments
  import opened Greedy

  /** What one pass-1 step decides: the segment keeps its line; a match covers the line's
      `n` words from the decided start, at or after the cursor, and moves the cursor just
      past them; otherwise the cursor stays. */
  lemma StepSpec(line: Line, p: Pick, words: seq<Word>, cursor: nat, quick: bool)
    requires Sound(p, words, cursor)
    ensures var (seg, next) := Step(line, p, words, cursor, quick);
      && KeepsLine(seg, line, quick)
      && SpanFrom(seg, p.n, words, cursor)
      && (seg.matched ==> next == seg.wordEnd + 1)
      && (!seg.matched ==> next == cursor)
  {
    var (seg, next) := Step(line, p, words, cursor, quick);
    if p.n == 0 {
      assert !seg.matched && seg.score == 0.0;
    }
  }

  /** Pass 1 from line `i` on is line `i`'s step followed by pass 1 from line `i + 1` on,
      with the cursor that step leaves: appending the step's segment to the results so far
      keeps them a prefix of the whole pass. */
  lemma Pass1WithStep(dialogue: seq<Line>, words: seq<Word>, i: nat, cursor: nat, quick: bool,
                      pick: (seq<Word>, Line, nat) -> Pick, done: seq<Seg>, seg: Seg, next: nat)
    requires SoundPicks(pick, words) && i < |dialogue|
    requires (seg, next)
      == Step(dialogue[i], pick(words, dialogue[i], cursor), words, cursor, quick)
    ensures done + Pass1With(dialogue[i..], words, cursor, quick, pick)
      == (done + [seg]) + Pass1With(dialogue[i + 1..], words, next, quick, pick)
  {
    assert dialogue[i..][0] == dialogue[i] && dialogue[i..][1..] == dialogue[i + 1..];
  }

  /** Pass 1 gives exactly one result per dialogue line, in order, and each keeps its line. */
  lemma {:induction false} Pass1Lines(dialogue: seq<Line>, words: seq<Word>, cursor: nat,
                                      quick: bool, pick: (seq<Word>, Line, nat) -> Pick)
    requires SoundPicks(pick, words)
    ensures var r := Pass1With(dialogue, words, cursor, quick, pick);
      && |r| == |dialogue|
      && (forall i :: 0 <= i < |r| ==> KeepsLine(r[i], dialogue[i], quick))
  {
    if dialogue != [] {
      var p := pick(words, dialogue[0], cursor);
      var (seg, next) := Step(dialogue[0], p, words, cursor, quick);
      StepSpec(dialogue[0], p, words, cursor, quick);
      var tail := Pass1With(dialogue[1..], words, next, quick, pick);
      Pass1Lines(dialogue[1..], words, next, quick, pick);
      var r := Pass1With(dialogue, words, cursor, quick, pick);
      assert r == [seg] + tail;
      forall i | 0 <= i < |r|
        ensures KeepsLine(r[i], dialogue[i], quick)
      {
        if i > 0 {
          assert r[i] == tail[i - 1] && dialogue[i] == dialogue[1..][i - 1];
        }
      }
    }
  }

  /** Every pass-1 match covers as many words as `width` gives its line, at or after the
      starting cursor and inside the word list, with those words' times; the spans of
      matched lines strictly increase. */
  lemma {:induction false} Pass1Spans(dialogue: seq<Line>, words: seq<Word>, cursor: nat,
                                      quick: bool, pick: (seq<Word>, Line, nat) -> Pick,
                                      width: Line -> nat)
    requires SoundPicks(pick, words)
    requires forall line, c: nat :: pick(words, line, c).n == width(line)
    ensures var r := Pass1With(dialogue, words, cursor, quick, pick);
      && |r| == |dialogue|
      && (forall i :: 0 <= i < |r| ==> SpanFrom(r[i], width(dialogue[i]), words, cursor))
      && (forall i, j :: 0 <= i < j < |r| && r[i].matched && r[j].matched ==>
            r[i].wordEnd < r[j].wordStart)
  {
    if dialogue != [] {
      var p := pick(words, dialogue[0], cursor);
      var (seg, next) := Step(dialogue[0], p, words, cursor, quick);
      StepSpec(dialogue[0], p, words, cursor, quick);
      var tail := Pass1With(dialogue[1..], words, next, quick, pick);
      Pass1Spans(dialogue[1..], words, next, quick, pick, width);
      var r := Pass1With(dialogue, words, cursor, quick, pick);
      assert r == [seg] + tail;
      assert cursor <= next && (seg.matched ==> seg.wordEnd < next);
      forall i | 0 <= i < |r|
        ensures SpanFrom(r[i], width(dialogue[i]), words, cursor)
      {
        if i > 0 {
          assert r[i] == tail[i - 1] && dialogue[i] == dialogue[1..][i - 1];
          assert SpanFrom(tail[i - 1], width(dialogue[1..][i - 1]), words, next);
        }
      }
      forall i, j | 0 <= i < j < |r| && r[i].matched && r[j].matched
        ensures r[i].wordEnd < r[j].wordStart
      {
        assert r[j] == tail[j - 1];
        assert SpanFrom(tail[j - 1], width(dialogue[1..][j - 1]), words, next);
        if i > 0 {
          assert r[i] == tail[i - 1];
        }
      }
    }
  }

  /** With the same decisions, the quick pass makes the same match and span decisions and
      reports the same scores; only the times of unmatched lines differ. */
  lemma {:induction false} QuickAgreesWith(dialogue: seq<Line>, words: seq<Word>, cursor: nat,
                                           pick: (seq<Word>, Line, nat) -> Pick)
    requires SoundPicks(pick, words)
    ensures var q := Pass1With(dialogue, words, cursor, true, pick);
      var p := Pass1With(dialogue, words, cursor, false, pick);
      && |q| == |p|
      && (forall i :: 0 <= i < |q| ==>
            && q[i].matched == p[i].matched
            && (q[i].matched ==> q[i] == p[i])
            && (!q[i].matched ==> q[i] == p[i].(start := 0.0, end := 0.0)))
  {
    if dialogue != [] {
      var d := pick(words, dialogue[0], cursor);
      var (sq, nq) := Step(dialogue[0], d, words, cursor, true);
      var (sp, np) := Step(dialogue[0], d, words, cursor, false);
      assert nq == np;
      var tq := Pass1With(dialogue[1..], words, nq, true, pick);
      var tp := Pass1With(dialogue[1..], words, np, false, pick);
      QuickAgreesWith(dialogue[1..], words, nq, pick);
      var q := Pass1With(dialogue, words, cursor, true, pick);
      var p := Pass1With(dialogue, words, cursor, false, pick);
      assert q == [sq] + tq && p == [sp] + tp;
      forall i | 0 <= i < |q|
        ensures q[i].matched == p[i].matched
        ensures q[i].matched ==> q[i] == p[i]
        ensures !q[i].matched ==> q[i] == p[i].(start := 0.0, end := 0.0)
      {
        if i > 0 {
          assert q[i] == tq[i - 1] && p[i] == tp[i - 1];
        }
      }
    }
  }

  /** Pass 1 gives exactly one result per dialogue line, in order, carrying the line's
      text, speaker and translation; a line is matched iff its score reaches 0.35; an
      unmatched line keeps its placeholder times and no span. */
  lemma Pass1Keeps(sim: Sim, dialogue: seq<Line>, words: seq<Word>, quick: bool)
    ensures var r := Pass1(sim, dialogue, words, quick);
      && |r| == |dialogue|
      && (forall i :: 0 <= i < |r| ==> KeepsLine(r[i], dialogue[i], quick))
  {
    PickAtSound(sim, words);
    Pass1Lines(dialogue, words, 0, quick, PickBy(sim));
  }

  /** A pass-1 match covers words [ws, ws + n - 1] of the list, with n the line's word
      count, and takes the first word's start and the last word's end; the spans of matched
      lines strictly increase, and all of them lie inside the word list. */
  lemma Pass1Ordered(sim: Sim, dialogue: seq<Line>, words: seq<Word>, quick: bool)
    ensures var r := Pass1(sim, dialogue, words, quick);
      && |r| == |dialogue|
      && (forall i :: 0 <= i < |r| ==> SpanFrom(r[i], WordCount(dialogue[i].text), words, 0))
      && (forall i, j :: 0 <= i < j < |r| && r[i].matched && r[j].matched ==>
            r[i].wordEnd < r[j].wordStart)
      && SpansIn(r, |words|)
  {
    PickAtSound(sim, words);
    var width := (line: Line) => WordCount(line.text);
    Pass1Spans(dialogue, words, 0, quick, PickBy(sim), width);
    var r := Pass1(sim, dialogue, words, quick);
    forall i | 0 <= i < |r|
      ensures SpanFrom(r[i], WordCount(dialogue[i].text), words, 0)
      ensures SpanOk(r[i], |words|)
    {
      assert SpanFrom(r[i], width(dialogue[i]), words, 0);
    }
  }

  /** _quick_greedy_align makes the same match and span decisions as pass 1 of align and
      reports the same scores; only the times of unmatched lines differ (0.0 instead of the
      line's own startTime/endTime). */
  lemma QuickAgrees(sim: Sim, dialogue: seq<Line>, words: seq<Word>)
    ensures var q := Pass1(sim, dialogue, words, true);
      var p := Pass1(sim, dialogue, words, false);
      && |q| == |p|
      && (forall i :: 0 <= i < |q| ==>
            && q[i].matched == p[i].matched
            && (q[i].matched ==> q[i] == p[i])
            && (!q[i].matched ==> q[i] == p[i].(start := 0.0, end := 0.0)))
  {
    PickAtSound(sim, words);
    QuickAgreesWith(dialogue, words, 0, PickBy(sim));
  }

  lemma PrevWordEndPrefix(a: seq<Seg>, b: seq<Seg>, i: nat, nw: nat)
    requires i <= |a| && i <= |b| && a[..i] == b[..i] && SpansIn(a, nw) && SpansIn(b, nw)
    ensures PrevWordEnd(a, i, nw) == PrevWordEnd(b, i, nw)
  {
    assert Flags(a)[..i] == Flags(b)[..i];
    RunStartPrefix(Flags(a), Flags(b), i);
    var s := RunStart(Flags(a), i);
    if s > 0 {
      assert a[s - 1] == a[..i][s - 1];
    }
  }

  lemma NextWordStartSuffix(a: seq<Seg>, b: seq<Seg>, i: nat, nw: nat)
    requires i < |a| == |b| && a[i + 1..] == b[i + 1..] && SpansIn(a, nw) && SpansIn(b, nw)
    ensures NextWordStart(a, i, nw) == NextWordStart(b, i, nw)
  {
    assert Flags(a)[i + 1..] == Flags(b)[i + 1..];
    RunEndSuffix(Flags(a), Flags(b), i + 1);
    var e := RunEnd(Flags(a), i + 1);
    if e < |a| {
      assert a[e] == a[i + 1..][e - i - 1];
    }
  }

  /** Pass 2 from entry `i` on is the refill of entry `i`, written back, followed by pass 2
      from entry `i + 1` on; the written-back list keeps its spans inside the word list. */
  lemma Pass2WithStep(rs: seq<Seg>, words: seq<Word>, i: nat,
                      fill: (seq<Word>, Seg, nat, int) -> Seg, seg: Seg)
    requires i < |rs| && SpansIn(rs, |words|) && SoundFill(fill, words)
    requires seg == fill(words, rs[i], PrevWordEnd(rs, i, |words|), NextWordStart(rs, i, |words|))
    ensures SpansIn(rs[i := seg], |words|)
    ensures Pass2With(rs, words, i, fill) == Pass2With(rs[i := seg], words, i + 1, fill)
  {
    assert SpanOk(rs[i], |words|);
  }

  /** `fill` agrees with the refill of align, with similarity test `sim`, wherever that
      refill is mentioned. */
  ghost predicate Agrees(sim: Sim, fill: (seq<Word>, Seg, nat, int) -> Seg) {
    forall w, seg, p: nat, q {:trigger RefillSeg(sim, w, seg, p, q)} ::
      fill(w, seg, p, q) == RefillSeg(sim, w, seg, p, q)
  }

  lemma AgreesAt(sim: Sim, fill: (seq<Word>, Seg, nat, int) -> Seg, w: seq<Word>, seg: Seg,
                 p: nat, q: int)
    requires Agrees(sim, fill)
    ensures fill(w, seg, p, q) == RefillSeg(sim, w, seg, p, q)
  {
  }

  lemma RefillsBy(sim: Sim, words: seq<Word>)
    ensures SoundFill(RefillBy(sim), words) && Agrees(sim, RefillBy(sim))
  {
    RefillSound(sim, words);
  }

  /** Pass 2 with two refills that agree everywhere gives the same results. */
  lemma {:induction false} Pass2WithSame(rs: seq<Seg>, words: seq<Word>, i: nat,
                                         f: (seq<Word>, Seg, nat, int) -> Seg,
                                         g: (seq<Word>, Seg, nat, int) -> Seg)
    requires i <= |rs| && SpansIn(rs, |words|) && SoundFill(f, words) && SoundFill(g, words)
    requires forall w, seg, p: nat, q :: f(w, seg, p, q) == g(w, seg, p, q)
    ensures Pass2With(rs, words, i, f) == Pass2With(rs, words, i, g)
    decreases |rs| - i
  {
    if i < |rs| {
      var seg := f(words, rs[i], PrevWordEnd(rs, i, |words|), NextWordStart(rs, i, |words|));
      Pass2WithStep(rs, words, i, f, seg);
      Pass2WithStep(rs, words, i, g, seg);
      Pass2WithSame(rs[i := seg], words, i + 1, f, g);
    }
  }

  /** Pass 2 with any refill that agrees with align's is pass 2 of align. */
  lemma Pass2Refills(sim: Sim, fill: (seq<Word>, Seg, nat, int) -> Seg, rs: seq<Seg>,
                     words: seq<Word>)
    requires SpansIn(rs, |words|) && SoundFill(fill, words) && Agrees(sim, fill)
    ensures Pass2With(rs, words, 0, fill) == Pass2(sim, rs, words)
  {
    RefillsBy(sim, words);
    forall w, seg, p: nat, q
      ensures fill(w, seg, p, q) == RefillBy(sim)(w, seg, p, q)
    {
      assert RefillBy(sim)(w, seg, p, q) == RefillSeg(sim, w, seg, p, q);
    }
    Pass2WithSame(rs, words, 0, fill, RefillBy(sim));
  }

  /** Pass 2 from `i` leaves the entries before `i` alone. */
  lemma {:induction false} Pass2WithPrefix(rs: seq<Seg>, words: seq<Word>, i: nat,
                                           fill: (seq<Word>, Seg, nat, int) -> Seg)
    requires i <= |rs| && SpansIn(rs, |words|) && SoundFill(fill, words)
    ensures Pass2With(rs, words, i, fill)[..i] == rs[..i]
    decreases |rs| - i
  {
    if i < |rs| {
      var nw := |words|;
      var next := rs[i := fill(words, rs[i], PrevWordEnd(rs, i, nw), NextWordStart(rs, i, nw))];
      Pass2WithPrefix(next, words, i + 1, fill);
      var r := Pass2With(next, words, i + 1, fill);
      assert r[..i] == r[..i + 1][..i] && next[..i] == next[..i + 1][..i];
      assert forall k :: 0 <= k < i ==> next[k] == rs[k];
    }
  }

  /** Pass 2 from `i` refills every entry `k` from `i` on from its value in `rs0`, bounded
      below by the final results before `k` and above by `rs0` after `k`. */
  lemma {:induction false} Pass2WithAt(rs: seq<Seg>, rs0: seq<Seg>, words: seq<Word>, i: nat,
                                       fill: (seq<Word>, Seg, nat, int) -> Seg)
    requires i <= |rs| == |rs0| && SpansIn(rs, |words|) && SpansIn(rs0, |words|)
    requires SoundFill(fill, words)
    requires rs[i..] == rs0[i..]
    ensures var r := Pass2With(rs, words, i, fill);
      forall k :: i <= k < |rs| ==>
        r[k] == fill(words, rs0[k], PrevWordEnd(r, k, |words|), NextWordStart(rs0, k, |words|))
    decreases |rs| - i
  {
    if i < |rs| {
      var nw := |words|;
      var seg := fill(words, rs[i], PrevWordEnd(rs, i, nw), NextWordStart(rs, i, nw));
      var next := rs[i := seg];
      assert next[i + 1..] == rs0[i + 1..] by {
        assert next[i + 1..] == rs[i + 1..] && rs[i + 1..] == rs0[i..][1..];
      }
      Pass2WithAt(next, rs0, words, i + 1, fill);
      Pass2WithPrefix(next, words, i + 1, fill);
      var r := Pass2With(next, words, i + 1, fill);
      assert r == Pass2With(rs, words, i, fill);
      assert r[i] == r[..i + 1][i] == next[i] == seg;
      assert r[..i] == rs[..i] by {
        assert r[..i] == r[..i + 1][..i] && next[..i] == next[..i + 1][..i];
        assert forall k :: 0 <= k < i ==> next[k] == rs[k];
      }
      PrevWordEndPrefix(r, rs, i, nw);
      assert rs[i + 1..] == rs0[i + 1..] by {
        assert rs[i + 1..] == rs[i..][1..] && rs0[i + 1..] == rs0[i..][1..];
      }
      NextWordStartSuffix(rs, rs0, i, nw);
      assert rs[i] == rs[i..][0] == rs0[i];
    }
  }

  /** Pass 2 refills every entry `k` from its pass-1 value, bounded below by `prev_word_end`
      in the final results and above by `next_word_start` in the pass-1 results. */
  lemma Pass2At(sim: Sim, rs: seq<Seg>, words: seq<Word>)
    requires SpansIn(rs, |words|)
    ensures var r := Pass2(sim, rs, words);
      forall k :: 0 <= k < |rs| ==>
        r[k] == RefillSeg(sim, words, rs[k], PrevWordEnd(r, k, |words|),
                          NextWordStart(rs, k, |words|))
  {
    RefillSound(sim, words);
    Pass2WithAt(rs, rs, words, 0, RefillBy(sim));
  }

  /** Pass 2 never changes a matched entry, and never one whose text has no words or whose
      bounds leave no room (prev_word_end >= next_word_start). An entry it does change becomes
      matched, with a score of at least 0.35 and a span of its word count that starts at or
      after one past the previous matched span and before the next pass-1 match, lies inside
      the word list and takes its words' times; text, speaker and translation are kept. */
  lemma Pass2Spec(sim: Sim, rs: seq<Seg>, words: seq<Word>)
    requires SpansIn(rs, |words|)
    ensures var r := Pass2(sim, rs, words);
      && |r| == |rs|
      && (forall k :: 0 <= k < |rs| && rs[k].matched ==> r[k] == rs[k])
      && (forall k :: 0 <= k < |rs| && WordCount(rs[k].text) == 0 ==> r[k] == rs[k])
      && (forall k :: 0 <= k < |rs| && PrevWordEnd(r, k, |words|) >= NextWordStart(rs, k, |words|)
            ==> r[k] == rs[k])
      && (forall k :: 0 <= k < |rs| && r[k] != rs[k] ==>
            && r[k].matched && r[k].score >= MatchThreshold
            && PrevWordEnd(r, k, |words|) <= r[k].wordStart < NextWordStart(rs, k, |words|)
            && r[k].wordEnd == r[k].wordStart + WordCount(rs[k].text) - 1
            && r[k].wordEnd < |words|
            && r[k].start == words[r[k].wordStart].start && r[k].end == words[r[k].wordEnd].end
            && r[k].text == rs[k].text && r[k].speaker == rs[k].speaker
            && r[k].translation == rs[k].translation)
  {
    Pass2At(sim, rs, words);
  }
}
