/** Gap detection and word-list splicing of scripts/align_whisper.py (auto_fill_gaps): find the
    runs of lines that a quick pass-1 alignment leaves unmatched inside a long stretch with
    almost no transcribed words, re-transcribe each such stretch with the run's text as a
    hint, and splice the new words into the word list. Audio extraction and transcription are
    not part of this model: the re-transcription of a stretch is a parameter. */
module GapFill {
  import opened Text
  import opened Fuzzy
  import opened Runs
  import opened Segments
  import opened Greedy
  import GreedyProofs
  import Aligner

  /** A stretch with more transcribed words than this already has content. */
  const MaxWordsInGap: nat := 5
  /** The margin around a stretch that the re-transcribed clip covers, in seconds. */
  const ClipMargin: real := 1.0
  /** gap_threshold's default, in seconds. */
  const DefaultGapThreshold: real := 6.0

  /** A stretch to re-transcribe: its bounds and the texts of its unmatched lines. */
  datatype Gap = Gap(tBefore: real, tAfter: real, texts: seq<string>)

  // ---------------------------------------------------------------------------
  // Gap detection
  // ---------------------------------------------------------------------------

  /** Word `w` lies wholly inside [a, b]. */
  predicate Inside(w: Word, a: real, b: real) {
    w.start >= a && w.end <= b
  }

  /** `sum(1 for w in words if w.start >= a and w.end <= b)`. */
  function CountInside(words: seq<Word>, a: real, b: real): (c: nat)
    ensures c <= |words|
  {
    if words == [] then 0
    else (if Inside(words[0], a, b) then 1 else 0) + CountInside(words[1..], a, b)
  }

  /** The texts of dialogue lines [s, e). */
  function Texts(dialogue: seq<Line>, s: nat, e: nat): (t: seq<string>)
    requires s <= e <= |dialogue|
    ensures |t| == e - s
    ensures forall k :: 0 <= k < e - s ==> t[k] == dialogue[s + k].text
  {
    seq(e - s, k requires 0 <= k < e - s => dialogue[s + k].text)
  }

  /** The run [s, e) of the preliminary results bounds a stretch worth re-transcribing: it
      has a matched line on both sides, the time between them is at least the threshold,
      and at most five words of the original list lie wholly inside it. */
  predicate Qualifies(prelim: seq<Seg>, words: seq<Word>, threshold: real, s: nat, e: nat)
    requires s <= e <= |prelim|
  {
    && 0 < s && e < |prelim|
    && prelim[e].start - prelim[s - 1].end >= threshold
    && CountInside(words, prelim[s - 1].end, prelim[e].start) <= MaxWordsInGap
  }

  /** The gap of a qualifying run [s, e). */
  function GapOf(prelim: seq<Seg>, dialogue: seq<Line>, s: nat, e: nat): Gap
    requires 0 < s <= e < |prelim| && e <= |dialogue|
  {
    Gap(prelim[s - 1].end, prelim[e].start, Texts(dialogue, s, e))
  }

  /** The gaps found from index `i` on, for the maximal unmatched runs starting there. */
  function GapsFrom(prelim: seq<Seg>, dialogue: seq<Line>, words: seq<Word>, threshold: real,
                    i: nat): seq<Gap>
    requires i <= |prelim| == |dialogue|
    decreases |prelim| - i
  {
    if i == |prelim| then []
    else if prelim[i].matched then GapsFrom(prelim, dialogue, words, threshold, i + 1)
    else
      var e := RunEnd(Flags(prelim), i);
      (if Qualifies(prelim, words, threshold, i, e) then [GapOf(prelim, dialogue, i, e)] else [])
        + GapsFrom(prelim, dialogue, words, threshold, e)
  }

  /** The gaps auto_fill_gaps collects (`gaps_to_fill`). */
  function Gaps(prelim: seq<Seg>, dialogue: seq<Line>, words: seq<Word>, threshold: real)
    : seq<Gap>
    requires |prelim| == |dialogue|
  {
    GapsFrom(prelim, dialogue, words, threshold, 0)
  }

  /** Every gap found comes from a maximal unmatched run that starts at or after `i` and
      qualifies; and every such run gives its gap. */
  lemma {:induction false} GapsFromSpec(prelim: seq<Seg>, dialogue: seq<Line>, words: seq<Word>,
                                        threshold: real, i: nat)
    requires i <= |prelim| == |dialogue|
    requires i == 0 || i == |prelim| || prelim[i - 1].matched || prelim[i].matched
    ensures forall g :: g in GapsFrom(prelim, dialogue, words, threshold, i) ==>
      exists s, e :: i <= s && IsRun(Flags(prelim), s, e)
        && Qualifies(prelim, words, threshold, s, e) && g == GapOf(prelim, dialogue, s, e)
    ensures forall s, e :: (i <= s && IsRun(Flags(prelim), s, e)
                            && Qualifies(prelim, words, threshold, s, e)) ==>
      GapOf(prelim, dialogue, s, e) in GapsFrom(prelim, dialogue, words, threshold, i)
    decreases |prelim| - i
  {
    var f := Flags(prelim);
    if i < |prelim| {
      if prelim[i].matched {
        GapsFromSpec(prelim, dialogue, words, threshold, i + 1);
        forall s, e | i <= s && IsRun(f, s, e)
          ensures i + 1 <= s
        {
        }
      } else {
        var e := RunEnd(f, i);
        assert IsRun(f, i, e);
        GapsFromSpec(prelim, dialogue, words, threshold, e);
        forall s, e' | i <= s && IsRun(f, s, e')
          ensures (s == i && e' == e) || e <= s
        {
          if s < e {
            RunOf(f, i, e, s);
            RunOf(f, s, e', s);
          }
        }
      }
    }
  }

  /** A run is selected only when it has matched lines on both sides, the time between them
      reaches the threshold, and at most five words lie wholly inside it; every run that
      meets these is selected. The gap spans from the end of the line before the run to the
      start of the line after it, and carries the run's texts. */
  lemma GapsSpec(prelim: seq<Seg>, dialogue: seq<Line>, words: seq<Word>, threshold: real)
    requires |prelim| == |dialogue|
    ensures forall g :: g in Gaps(prelim, dialogue, words, threshold) ==>
      exists s, e :: IsRun(Flags(prelim), s, e)
        && Qualifies(prelim, words, threshold, s, e) && g == GapOf(prelim, dialogue, s, e)
    ensures forall s, e :: (IsRun(Flags(prelim), s, e) && Qualifies(prelim, words, threshold, s, e)) ==>
      GapOf(prelim, dialogue, s, e) in Gaps(prelim, dialogue, words, threshold)
  {
    GapsFromSpec(prelim, dialogue, words, threshold, 0);
  }

  /** A selected gap lasts at least the threshold, and has at most five words inside. */
  lemma GapBounds(prelim: seq<Seg>, dialogue: seq<Line>, words: seq<Word>, threshold: real, g: Gap)
    requires |prelim| == |dialogue| && g in Gaps(prelim, dialogue, words, threshold)
    ensures g.tAfter - g.tBefore >= threshold
    ensures CountInside(words, g.tBefore, g.tAfter) <= MaxWordsInGap
    ensures g.texts != []
  {
    GapsSpec(prelim, dialogue, words, threshold);
  }

  /** The loop of auto_fill_gaps that walks the unmatched runs of the preliminary results and
      collects the gaps. */
  method FindGaps(prelim: seq<Seg>, dialogue: seq<Line>, words: seq<Word>, threshold: real)
    returns (gapsToFill: seq<Gap>)
    requires |prelim| == |dialogue|
    ensures gapsToFill == Gaps(prelim, dialogue, words, threshold)
  {
    var n := |dialogue|;
    gapsToFill := [];
    var i := 0;
    while i < n
      invariant 0 <= i <= n
      invariant 0 < i < n ==> prelim[i - 1].matched || prelim[i].matched
      invariant gapsToFill + GapsFrom(prelim, dialogue, words, threshold, i)
        == Gaps(prelim, dialogue, words, threshold)
    {
      if prelim[i].matched {
        i := i + 1;
        continue;
      }
      var runStart := i;
      while i < n && !prelim[i].matched
        invariant runStart <= i <= n
        invariant RunEnd(Flags(prelim), i) == RunEnd(Flags(prelim), runStart)
      {
        i := i + 1;
      }
      var runEnd := i;
      var gap := RunGap(prelim, dialogue, words, threshold, runStart, runEnd);
      GapsFromRun(prelim, dialogue, words, threshold, runStart);
      gapsToFill := gapsToFill + gap;
    }
  }

  /** From the start of a maximal unmatched run, the gaps found are what the run loop's body
      adds for the run, then the gaps found after it. */
  lemma GapsFromRun(prelim: seq<Seg>, dialogue: seq<Line>, words: seq<Word>, threshold: real,
                    i: nat)
    requires i < |prelim| == |dialogue| && !prelim[i].matched
    requires i == 0 || prelim[i - 1].matched
    ensures GapsFrom(prelim, dialogue, words, threshold, i)
      == RunGapOf(prelim, dialogue, words, threshold, i, RunEnd(Flags(prelim), i))
         + GapsFrom(prelim, dialogue, words, threshold, RunEnd(Flags(prelim), i))
  {
    var e := RunEnd(Flags(prelim), i);
    assert IsRun(Flags(prelim), i, e);
    RunGapOfRun(prelim, dialogue, words, threshold, i, e);
  }

  /** The end of the last matched result at or before index `j` (the backward scan for
      `t_before`), if any. */
  function PrevAnchor(prelim: seq<Seg>, j: int): Option<real>
    requires -1 <= j < |prelim|
    decreases j + 1
  {
    if j < 0 then None
    else if prelim[j].matched then Some(prelim[j].end)
    else PrevAnchor(prelim, j - 1)
  }

  /** The start of the first matched result at or after index `j` (the forward scan for
      `t_after`), if any. */
  function NextAnchor(prelim: seq<Seg>, j: nat): Option<real>
    requires j <= |prelim|
    decreases |prelim| - j
  {
    if j == |prelim| then None
    else if prelim[j].matched then Some(prelim[j].start)
    else NextAnchor(prelim, j + 1)
  }

  /** What the body of the run loop adds for lines [s, e): the gap between the anchors
      found by the two scans, when both exist, it lasts at least the threshold and at most
      five words lie inside it. */
  function RunGapOf(prelim: seq<Seg>, dialogue: seq<Line>, words: seq<Word>, threshold: real,
                    s: nat, e: nat): seq<Gap>
    requires s <= e <= |prelim| == |dialogue|
  {
    var before := PrevAnchor(prelim, s - 1);
    var after := NextAnchor(prelim, e);
    if before.Some? && after.Some? && after.value - before.value >= threshold
       && CountInside(words, before.value, after.value) <= MaxWordsInGap
    then [Gap(before.value, after.value, Texts(dialogue, s, e))]
    else []
  }

  /** For a maximal unmatched run the scans stop at once, on the lines on either side, so
      the body adds the run's gap exactly when the run qualifies. */
  lemma RunGapOfRun(prelim: seq<Seg>, dialogue: seq<Line>, words: seq<Word>, threshold: real,
                    s: nat, e: nat)
    requires s < e <= |prelim| == |dialogue| && IsRun(Flags(prelim), s, e)
    ensures RunGapOf(prelim, dialogue, words, threshold, s, e)
      == if Qualifies(prelim, words, threshold, s, e) then [GapOf(prelim, dialogue, s, e)] else []
  {
    if s > 0 {
      assert prelim[s - 1].matched;
    }
    if e < |prelim| {
      assert prelim[e].matched;
    }
  }

  /** One run [s, e): the two anchor scans, the duration and word-count tests, and its gap
      if it passes them. */
  method RunGap(prelim: seq<Seg>, dialogue: seq<Line>, words: seq<Word>, threshold: real,
                s: nat, e: nat) returns (gap: seq<Gap>)
    requires s <= e <= |prelim| == |dialogue|
    ensures gap == RunGapOf(prelim, dialogue, words, threshold, s, e)
  {
    var n := |prelim|;
    var tBefore: Option<real> := None;
    var tAfter: Option<real> := None;
    var j: int := s - 1;
    while j >= 0
      invariant -1 <= j < s && tBefore.None?
      invariant PrevAnchor(prelim, j) == PrevAnchor(prelim, s - 1)
    {
      if prelim[j].matched {
        tBefore := Some(prelim[j].end);
        break;
      }
      j := j - 1;
    }
    j := e;
    while j < n
      invariant e <= j <= n && tAfter.None?
      invariant NextAnchor(prelim, j) == NextAnchor(prelim, e)
    {
      if prelim[j].matched {
        tAfter := Some(prelim[j].start);
        break;
      }
      j := j + 1;
    }
    if tBefore.None? || tAfter.None? {
      return [];
    }
    var gapDuration := tAfter.value - tBefore.value;
    if gapDuration < threshold {
      return [];
    }
    var wordsInGap := CountInside(words, tBefore.value, tAfter.value);
    if wordsInGap > MaxWordsInGap {
      return [];
    }
    gap := [Gap(tBefore.value, tAfter.value, Texts(dialogue, s, e))];
  }

  // ---------------------------------------------------------------------------
  // Splicing the re-transcribed words
  // ---------------------------------------------------------------------------

  /** The words of `ws` that satisfy `keep`, in order. */
  function Filter(ws: seq<Word>, keep: Word -> bool): (r: seq<Word>)
    ensures |r| <= |ws|
    ensures forall w :: w in r <==> w in ws && keep(w)
  {
    if ws == [] then []
    else
      var rest := Filter(ws[1..], keep);
      assert forall w :: w in ws <==> w == ws[0] || w in ws[1..];
      (if keep(ws[0]) then [ws[0]] else []) + rest
  }

  /** The patch words kept for a gap: those wholly inside [gap_start - 1, gap_end + 1]. */
  function KeepPatch(patch: seq<Word>, g: Gap): seq<Word> {
    Filter(patch, w => Inside(w, g.tBefore - ClipMargin, g.tAfter + ClipMargin))
  }

  /** The words that survive a gap: those not wholly inside [gap_start, gap_end]. */
  function Outside(ws: seq<Word>, g: Gap): seq<Word> {
    Filter(ws, w => !Inside(w, g.tBefore, g.tAfter))
  }

  /** `insert_pos`: one past the last word that ends at or before `t`, or 0 when none does. */
  function InsertPos(ws: seq<Word>, t: real): (p: nat)
    ensures p <= |ws|
    ensures p == 0 || ws[p - 1].end <= t
    ensures forall k :: p <= k < |ws| ==> ws[k].end > t
  {
    if ws == [] then 0
    else if ws[|ws| - 1].end <= t then |ws|
    else InsertPos(ws[..|ws| - 1], t)
  }

  /** The word list after one gap's patch words `kept` (already filtered, non-empty) are
      spliced in. */
  function Spliced(ws: seq<Word>, g: Gap, kept: seq<Word>): seq<Word> {
    var out := Outside(ws, g);
    var p := InsertPos(out, g.tBefore);
    out[..p] + kept + out[p..]
  }

  /** The splice drops exactly the words wholly inside the gap, keeps the others in order,
      and puts the patch words, in their order, right after the last kept word that ends at
      or before the gap's start (at the front when there is none): every kept word before
      them ends by then, every kept word after them ends later. */
  lemma SplicedSpec(ws: seq<Word>, g: Gap, kept: seq<Word>)
    ensures var out := Outside(ws, g);
      var p := InsertPos(out, g.tBefore);
      var r := Spliced(ws, g, kept);
      && (forall w :: w in out <==> w in ws && !Inside(w, g.tBefore, g.tAfter))
      && |r| == |out| + |kept|
      && r[..p] == out[..p] && r[p..p + |kept|] == kept && r[p + |kept|..] == out[p..]
      && (p == 0 || r[p - 1].end <= g.tBefore)
      && (forall k :: p + |kept| <= k < |r| ==> r[k].end > g.tBefore)
  {
    var out := Outside(ws, g);
    var p := InsertPos(out, g.tBefore);
    var r := Spliced(ws, g, kept);
    assert r[p + |kept|..] == out[p..];
    forall k | p + |kept| <= k < |r|
      ensures r[k].end > g.tBefore
    {
      assert r[k] == out[k - |kept|];
    }
  }

  /** The count of words inside a stretch and the words outside it make up the list. */
  lemma {:induction false} OutsideCount(ws: seq<Word>, g: Gap)
    ensures |Outside(ws, g)| + CountInside(ws, g.tBefore, g.tAfter) == |ws|
  {
    if ws != [] {
      OutsideCount(ws[1..], g);
    }
  }

  /** Patch words are kept only inside [gap_start - 1, gap_end + 1]. */
  lemma KeepPatchInside(patch: seq<Word>, g: Gap)
    ensures forall w :: w in KeepPatch(patch, g) <==>
      w in patch && w.start >= g.tBefore - ClipMargin && w.end <= g.tAfter + ClipMargin
  {
  }

  /** A re-transcription: given the clip's start and end and the hint text, the words heard
      in it, with times already shifted to the full recording. */
  type Transcriber = (real, real, string) -> seq<Word>

  /** The words the re-transcription of gap `g` yields: the clip is [max(0, gap_start - 1),
      gap_end + 1] and the hint is the gap's texts joined with spaces. */
  function PatchWords(tr: Transcriber, g: Gap): seq<Word> {
    tr(MaxReal(0.0, g.tBefore - ClipMargin), g.tAfter + ClipMargin, JoinSpace(g.texts))
  }

  /** One gap's effect on the word list: nothing when no patch word survives the filter,
      the splice otherwise. */
  function FillGap(ws: seq<Word>, g: Gap, tr: Transcriber): seq<Word> {
    var kept := KeepPatch(PatchWords(tr, g), g);
    if kept == [] then ws else Spliced(ws, g, kept)
  }

  /** The word list after the gaps `gaps`, in order, have been filled. */
  function FillGaps(ws: seq<Word>, gaps: seq<Gap>, tr: Transcriber): seq<Word>
    decreases |gaps|
  {
    if gaps == [] then ws else FillGaps(FillGap(ws, gaps[0], tr), gaps[1..], tr)
  }

  /** What auto_fill_gaps returns. */
  function AutoFilled(sim: Sim, words: seq<Word>, dialogue: seq<Line>, threshold: real,
                      tr: Transcriber): seq<Word>
  {
    GreedyProofs.Pass1Keeps(sim, dialogue, words, true);
    FillGaps(words, Gaps(Pass1(sim, dialogue, words, true), dialogue, words, threshold), tr)
  }

  /** One pass of the patch loop: filter the patch words, drop the words inside the gap and
      insert the patch words at `insert_pos`. */
  method FillOne(improved: seq<Word>, g: Gap, tr: Transcriber) returns (next: seq<Word>)
    ensures next == FillGap(improved, g, tr)
  {
    var patchWords := PatchWords(tr, g);
    if patchWords == [] {
      return improved;
    }
    patchWords := KeepPatch(patchWords, g);
    if patchWords == [] {
      return improved;
    }
    next := Outside(improved, g);
    var insertPos := FindInsertPos(next, g.tBefore);
    next := InsertAll(next, insertPos, patchWords);
  }

  /** The scan for `insert_pos`. */
  method FindInsertPos(ws: seq<Word>, t: real) returns (insertPos: nat)
    ensures insertPos == InsertPos(ws, t)
  {
    insertPos := 0;
    for k := 0 to |ws|
      invariant insertPos <= k
      invariant insertPos == 0 || ws[insertPos - 1].end <= t
      invariant forall m :: insertPos <= m < k ==> ws[m].end > t
    {
      if ws[k].end <= t {
        insertPos := k + 1;
      }
    }
    InsertPosUnique(ws, t, insertPos);
  }

  /** `improved.insert(insert_pos + k, w)` for each patch word, in order. */
  method InsertAll(out: seq<Word>, insertPos: nat, patch: seq<Word>) returns (next: seq<Word>)
    requires insertPos <= |out|
    ensures next == out[..insertPos] + patch + out[insertPos..]
  {
    next := out;
    for k := 0 to |patch|
      invariant next == out[..insertPos] + patch[..k] + out[insertPos..]
    {
      next := next[..insertPos + k] + [patch[k]] + next[insertPos + k..];
      assert patch[..k + 1] == patch[..k] + [patch[k]];
    }
    assert patch[..|patch|] == patch;
  }

  /** The insertion position is determined by its two properties. */
  lemma {:induction false} InsertPosUnique(ws: seq<Word>, t: real, p: nat)
    requires p <= |ws| && (p == 0 || ws[p - 1].end <= t)
    requires forall k :: p <= k < |ws| ==> ws[k].end > t
    ensures p == InsertPos(ws, t)
  {
    var q := InsertPos(ws, t);
  }

  /** auto_fill_gaps: the quick pass-1 alignment, gap detection, then each gap filled in
      turn. `DefaultGapThreshold` is the default value of the source's `gap_threshold`
      parameter, which `threshold` stands for. */
  method AutoFillGaps(sim: Sim, words: seq<Word>, dialogue: seq<Line>, threshold: real,
                      tr: Transcriber) returns (improved: seq<Word>)
    ensures improved == AutoFilled(sim, words, dialogue, threshold, tr)
  {
    var prelim := Aligner.QuickGreedyAlign(sim, words, dialogue);
    GreedyProofs.Pass1Keeps(sim, dialogue, words, true);
    var gapsToFill := FindGaps(prelim, dialogue, words, threshold);
    if gapsToFill == [] {
      return words;
    }
    improved := words;
    for k := 0 to |gapsToFill|
      invariant FillGaps(improved, gapsToFill[k..], tr) == FillGaps(words, gapsToFill, tr)
    {
      assert gapsToFill[k..][1..] == gapsToFill[k + 1..];
      improved := FillOne(improved, gapsToFill[k], tr);
    }
    assert gapsToFill[|gapsToFill|..] == [];
  }
}
