/** The greedy sequential aligner of scripts/align_whisper.py as it runs: pass 1 of align
    and _quick_greedy_align over a growing result list, pass 2 over the result list in
    place, and align itself (passes 1 to 3). */
module Aligner {
  import opened Text
  import opened Fuzzy
  import opened Runs
  import opened Segments
  import opened Window
  import opened WindowProofs
  import opened Greedy
  import opened GreedyProofs
  import PostProcess

  /** One pass-1 step for `line` with the cursor at `cursor`: the window search, then the
      matched segment and the cursor past it, or the unmatched segment. */
  method AlignLine(sim: Sim, words: seq<Word>, line: Line, cursor: nat, quick: bool)
    returns (seg: Seg, next: nat)
    ensures Sound(PickAt(sim, words, line, cursor), words, cursor)
    ensures (seg, next) == Step(line, PickAt(sim, words, line, cursor), words, cursor, quick)
  {
    var refWords := NormalizeText(line.text);
    var n := |refWords|;
    var bestScore, bestStart := 0.0, cursor;
    if n == 0 {
      PickAtEmpty(sim, words, line, cursor);
    } else {
      var searchEnd := Min(cursor + SearchWindow, |words|);
      bestScore, bestStart := BestMatchInRange(sim, refWords, words, cursor, searchEnd);
      PickAtFound(sim, words, line, cursor, bestScore, bestStart);
    }
    PickAtSoundAt(sim, words, line, cursor);
    seg, next := Emit(line, Pick(n, bestScore, bestStart), words, cursor, quick);
  }

  method Emit(line: Line, p: Pick, words: seq<Word>, cursor: nat, quick: bool)
    returns (seg: Seg, next: nat)
    requires Sound(p, words, cursor)
    ensures (seg, next) == Step(line, p, words, cursor, quick)
  {
    var (ps, pe) := Placeholder(line, quick);
    if p.n == 0 {
      return Unmatched(line, ps, pe, 0.0), cursor;
    }
    if p.score >= MatchThreshold {
      var bestEnd := p.start + p.n - 1;
      seg := Seg(line.text, line.speaker, line.translation,
                 words[p.start].start, words[bestEnd].end,
                 true, p.score, p.start, bestEnd);
      next := bestEnd + 1;
    } else {
      seg, next := Unmatched(line, ps, pe, p.score), cursor;
    }
  }

  /** The pass-1 loop shared by align (`quick` false) and _quick_greedy_align (`quick`
      true): one step per dialogue line, the cursor carried from step to step. */
  method GreedyPass(sim: Sim, dialogue: seq<Line>, words: seq<Word>, quick: bool)
    returns (results: seq<Seg>)
    ensures results == Pass1(sim, dialogue, words, quick)
  {
    PickAtSound(sim, words);
    ghost var all := Pass1With(dialogue, words, 0, quick, PickBy(sim));
    results := [];
    var cursor := 0;
    for i := 0 to |dialogue|
      invariant results + Pass1With(dialogue[i..], words, cursor, quick, PickBy(sim)) == all
    {
      var seg, next := AlignLine(sim, words, dialogue[i], cursor, quick);
      Pass1WithStep(dialogue, words, i, cursor, quick, PickBy(sim), results, seg, next);
      results := results + [seg];
      cursor := next;
    }
    assert dialogue[|dialogue|..] == [];
    assert results + [] == results;
  }

  /** _quick_greedy_align: pass 1 with 0.0 placeholder times. */
  method QuickGreedyAlign(sim: Sim, words: seq<Word>, dialogue: seq<Line>)
    returns (results: seq<Seg>)
    ensures results == Pass1(sim, dialogue, words, true)
  {
    results := GreedyPass(sim, dialogue, words, true);
  }

  /** The backward scan of pass 2 for entry `i`: `prev_word_end`. */
  method ScanPrev(results: array<Seg>, i: nat, nw: nat) returns (prevWordEnd: int)
    requires i <= results.Length && SpansIn(results[..], nw)
    ensures prevWordEnd == PrevWordEnd(results[..], i, nw)
  {
    prevWordEnd := 0;
    for j := i downto 0
      invariant forall m :: j <= m < i ==> !results[m].matched
    {
      if results[j].matched {
        prevWordEnd := results[j].wordEnd + 1;
        assert RunStart(Flags(results[..]), i) == j + 1;
        return;
      }
    }
    assert RunStart(Flags(results[..]), i) == 0;
  }

  /** The forward scan of pass 2 for entry `i`: `next_word_start`. */
  method ScanNext(results: array<Seg>, i: nat, nw: nat) returns (nextWordStart: int)
    requires i < results.Length && SpansIn(results[..], nw)
    ensures nextWordStart == NextWordStart(results[..], i, nw)
  {
    nextWordStart := nw;
    for j := i + 1 to results.Length
      invariant forall m :: i + 1 <= m < j ==> !results[m].matched
    {
      if results[j].matched {
        nextWordStart := results[j].wordStart;
        assert RunEnd(Flags(results[..]), i + 1) == j;
        return;
      }
    }
    assert RunEnd(Flags(results[..]), i + 1) == results.Length;
  }

  /** Pass 2 on entry `i` of the result list, in place: the entry becomes its refill
      (RefillSeg, which `fill` agrees with) between its `prev_word_end` and
      `next_word_start`. */
  method RefillAt(sim: Sim, results: array<Seg>, words: seq<Word>, i: nat,
                  ghost fill: (seq<Word>, Seg, nat, int) -> Seg)
    requires i < results.Length && SpansIn(results[..], |words|) && Agrees(sim, fill)
    modifies results
    ensures results[..] == old(results[..])[i := fill(words, old(results[i]),
      PrevWordEnd(old(results[..]), i, |words|), NextWordStart(old(results[..]), i, |words|))]
  {
    AgreesAt(sim, fill, words, results[i], PrevWordEnd(results[..], i, |words|),
             NextWordStart(results[..], i, |words|));
    var seg := results[i];
    if seg.matched || NormalizeText(seg.text) == [] {
      return;
    }
    var prevWordEnd := ScanPrev(results, i, |words|);
    var nextWordStart := ScanNext(results, i, |words|);
    if prevWordEnd >= nextWordStart {
      return;
    }
    var refWords := NormalizeText(seg.text);
    var n := |refWords|;
    var bestScore, bestStart := BestMatchInRange(sim, refWords, words, prevWordEnd, nextWordStart);
    if bestScore >= MatchThreshold && bestStart + n <= |words| {
      var bestEnd := bestStart + n - 1;
      results[i] := seg.(start := words[bestStart].start, end := words[bestEnd].end,
                         matched := true, score := bestScore,
                         wordStart := bestStart, wordEnd := bestEnd);
    }
  }

  /** Pass 2 of align, run over the results of pass 1 in place. */
  method RefillUnmatched(sim: Sim, results: array<Seg>, words: seq<Word>)
    requires SpansIn(results[..], |words|)
    modifies results
    ensures results[..] == Pass2(sim, old(results[..]), words)
  {
    RefillsBy(sim, words);
    ghost var fill: (seq<Word>, Seg, nat, int) -> Seg :|
      SoundFill(fill, words) && Agrees(sim, fill);
    RefillLoop(sim, results, words, fill);
    Pass2Refills(sim, fill, old(results[..]), words);
  }

  /** The loop of pass 2, proved against any refill `fill` that agrees with align's. */
  method RefillLoop(sim: Sim, results: array<Seg>, words: seq<Word>,
                    ghost fill: (seq<Word>, Seg, nat, int) -> Seg)
    requires SpansIn(results[..], |words|) && SoundFill(fill, words) && Agrees(sim, fill)
    modifies results
    ensures results[..] == Pass2With(old(results[..]), words, 0, fill)
  {
    var nSegs := results.Length;
    for i := 0 to nSegs
      invariant SpansIn(results[..], |words|)
      invariant Pass2With(results[..], words, i, fill)
        == Pass2With(old(results[..]), words, 0, fill)
    {
      ghost var before := results[..];
      RefillAt(sim, results, words, i, fill);
      Pass2WithStep(before, words, i, fill, results[i]);
    }
  }

  /** align: pass 1 (greedy cursor), pass 2 (bounded re-scan) and pass 3 (interpolation of
      the lines still unmatched). */
  method Align(sim: Sim, dialogue: seq<Line>, words: seq<Word>) returns (results: array<Seg>)
    ensures fresh(results)
    ensures SpansIn(Pass1(sim, dialogue, words, false), |words|)
    ensures results[..]
      == PostProcess.Interpolated(Pass2(sim, Pass1(sim, dialogue, words, false), words))
  {
    var pass1 := GreedyPass(sim, dialogue, words, false);
    Pass1Ordered(sim, dialogue, words, false);
    results := new Seg[|pass1|](i requires 0 <= i < |pass1| => pass1[i]);
    assert results[..] == pass1;
    RefillUnmatched(sim, results, words);
    PostProcess.InterpolateUnmatched(results);
  }
}
