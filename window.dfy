/** The window search of scripts/align_whisper.py (_best_match_in_range): slide the
    reference words over a range of transcribed words and keep the best-scoring start. */
module Window {
  import opened Fuzzy
  import opened Segments

  /** The texts of the `n` words starting at `j`: the hypothesis the scan scores there. */
  function Texts(words: seq<Word>, j: nat, n: nat): seq<string>
    requires j + n <= |words|
  {
    seq(n, k requires 0 <= k < n => words[j + k].text)
  }

  /** The exclusive bound of the scan, max(start + 1, stop - n + 1). */
  function ScanLimit(start: nat, stop: int, n: nat): int {
    if start + 1 >= stop - n + 1 then start + 1 else stop - n + 1
  }

  /** `j` is a start the scan scores: inside the scanned range with all of its `n` words
      inside the word list (the scan stops at the first start that runs off the end). */
  predicate Candidate(refs: seq<string>, words: seq<Word>, start: nat, stop: int, j: int) {
    start <= j < ScanLimit(start, stop, |refs|) && j + |refs| <= |words|
  }

  /** A scorer of a reference list against a hypothesis list: word_match_score is one. */
  type Scorer = (seq<string>, seq<string>) -> real

  /** The score `sc` gives the `|refs|` words starting at `j`. */
  function ScoreWith(sc: Scorer, refs: seq<string>, words: seq<Word>, j: nat): real
    requires j + |refs| <= |words|
  {
    sc(refs, Texts(words, j, |refs|))
  }

  /** The scan from `j` on, scoring with `sc`, with the best score and start found so far. */
  function BestFrom(sc: Scorer, refs: seq<string>, words: seq<Word>, hi: int, j: nat,
                    best: real, bestStart: nat): (real, nat)
    decreases hi - j
  {
    if j >= hi || j + |refs| > |words| then (best, bestStart)
    else if ScoreWith(sc, refs, words, j) > best then
      BestFrom(sc, refs, words, hi, j + 1, ScoreWith(sc, refs, words, j), j)
    else BestFrom(sc, refs, words, hi, j + 1, best, bestStart)
  }

  /** word_match_score with similarity test `sim`, as a scorer. */
  function ScoreOf(sim: Sim): Scorer {
    (refs, hyp) => Score(sim, refs, hyp)
  }

  /** `(best_score, best_start)` of _best_match_in_range(refs, words, start, stop). */
  function BestMatch(sim: Sim, refs: seq<string>, words: seq<Word>, start: nat, stop: int)
    : (real, nat)
  {
    BestFrom(ScoreOf(sim), refs, words, ScanLimit(start, stop, |refs|), start, 0.0, start)
  }

  /** `(s, b)` is the first strictly greatest score `sc` gives among the candidates, and
      `(0.0, start)` when no candidate scores above 0. */
  ghost predicate IsBest(sc: Scorer, refs: seq<string>, words: seq<Word>, start: nat, stop: int,
                         s: real, b: nat) {
    && 0.0 <= s
    && (s == 0.0 ==> b == start)
    && (s > 0.0 ==> Candidate(refs, words, start, stop, b) && ScoreWith(sc, refs, words, b) == s)
    && (forall j :: Candidate(refs, words, start, stop, j) ==> ScoreWith(sc, refs, words, j) <= s)
    && (forall j :: Candidate(refs, words, start, stop, j) && j < b ==>
          ScoreWith(sc, refs, words, j) < s)
  }
}

/** What _best_match_in_range returns, and the loop that computes it. */
module WindowProofs {
  import opened Fuzzy
  import opened Segments
  import opened Window

  lemma {:induction false} BestFromIsBest(sc: Scorer, refs: seq<string>, words: seq<Word>,
                                          start: nat, stop: int,
                                          j: nat, best: real, bestStart: nat)
    requires start <= j
    requires 0.0 <= best && (best == 0.0 ==> bestStart == start)
    requires best > 0.0 ==>
      bestStart < j && Candidate(refs, words, start, stop, bestStart)
      && ScoreWith(sc, refs, words, bestStart) == best
    requires forall i :: Candidate(refs, words, start, stop, i) && i < j ==>
      ScoreWith(sc, refs, words, i) <= best
    requires forall i :: Candidate(refs, words, start, stop, i) && i < bestStart ==>
      ScoreWith(sc, refs, words, i) < best
    ensures var r := BestFrom(sc, refs, words, ScanLimit(start, stop, |refs|), j, best, bestStart);
      IsBest(sc, refs, words, start, stop, r.0, r.1)
    decreases ScanLimit(start, stop, |refs|) - j
  {
    var hi := ScanLimit(start, stop, |refs|);
    if j < hi && j + |refs| <= |words| {
      var s := ScoreWith(sc, refs, words, j);
      if s > best {
        BestFromIsBest(sc, refs, words, start, stop, j + 1, s, j);
      } else {
        BestFromIsBest(sc, refs, words, start, stop, j + 1, best, bestStart);
      }
    }
  }

  /** _best_match_in_range returns the lowest-indexed candidate with the strictly greatest
      word_match_score, or (0.0, start) when no candidate scores above 0. */
  lemma BestMatchIsBest(sim: Sim, refs: seq<string>, words: seq<Word>, start: nat, stop: int)
    ensures var (s, b) := BestMatch(sim, refs, words, start, stop);
      IsBest(ScoreOf(sim), refs, words, start, stop, s, b)
  {
    BestFromIsBest(ScoreOf(sim), refs, words, start, stop, start, 0.0, start);
  }

  /** The best score lies in [0, 1]; a start with a positive score lies in
      [start, |words| - n] and before the scan bound, and, when the range holds at least n
      words, its span ends inside the range. */
  lemma BestMatchBounds(sim: Sim, refs: seq<string>, words: seq<Word>, start: nat, stop: int)
    ensures var (s, b) := BestMatch(sim, refs, words, start, stop);
      && 0.0 <= s <= 1.0
      && (s == 0.0 ==> b == start)
      && (s > 0.0 ==> start <= b < ScanLimit(start, stop, |refs|) && b + |refs| <= |words|)
      && (s > 0.0 && stop - start >= |refs| ==> b + |refs| <= stop)
  {
    BestMatchIsBest(sim, refs, words, start, stop);
    var (s, b) := BestMatch(sim, refs, words, start, stop);
    if s > 0.0 {
      ScoreRange(sim, refs, Texts(words, b, |refs|));
      assert ScoreWith(ScoreOf(sim), refs, words, b) == s;
    }
  }

  /** _best_match_in_range: the `best_score` / `best_start` loop. */
  method BestMatchInRange(sim: Sim, refs: seq<string>, words: seq<Word>, start: nat, stop: int)
    returns (bestScore: real, bestStart: nat)
    ensures (bestScore, bestStart) == BestMatch(sim, refs, words, start, stop)
  {
    var n := |refs|;
    bestScore, bestStart := 0.0, start;
    var hi := ScanLimit(start, stop, n);
    var j := start;
    while j < hi
      invariant start <= j
      invariant BestFrom(ScoreOf(sim), refs, words, hi, j, bestScore, bestStart)
        == BestMatch(sim, refs, words, start, stop)
      decreases hi - j
    {
      if j + n > |words| {
        break;
      }
      var hyp := Texts(words, j, n);
      var score := WordMatchScore(sim, refs, hyp);
      if score > bestScore {
        bestScore, bestStart := score, j;
      }
      j := j + 1;
    }
  }
}
