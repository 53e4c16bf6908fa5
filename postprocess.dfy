/** Post-processing of aligned segments in scripts/align_whisper.py: linear interpolation of
    unmatched runs (_interpolate_unmatched) and the overlap clamp (fix_overlaps). Both rewrite
    the segments of the result list in place. */
module PostProcess {
  import opened Runs
  import opened Segments

  // ---------------------------------------------------------------------------
  // _interpolate_unmatched
  // ---------------------------------------------------------------------------

  /** `t_before` of the run starting at `s`: the end of the entry before it, or 0.0. */
  function TBefore(rs: seq<Seg>, s: nat): real
    requires s <= |rs|
  {
    if s > 0 then rs[s - 1].end else 0.0
  }

  /** `t_after` of the run [s, e): the start of the entry after it or, for a run that reaches
      the end of the list, the last run entry's own end plus 2 seconds per entry. */
  function TAfter(rs: seq<Seg>, s: nat, e: nat): real
    requires s < e <= |rs|
  {
    if e < |rs| then rs[e].start else rs[e - 1].end + 2.0 * (e - s) as real
  }

  /** The slice length of the run [s, e): (t_after - t_before) / (e - s). */
  function SliceLength(rs: seq<Seg>, s: nat, e: nat): real
    requires s < e <= |rs|
  {
    (TAfter(rs, s, e) - TBefore(rs, s)) / (e - s) as real
  }

  /** `seg` placed in slot `k` of slices of length `d` laid end to end from `t`: from
      t + k * d to t + (k + 1) * d, with everything else kept. */
  function Placed(seg: Seg, t: real, k: nat, d: real): Seg {
    seg.(start := t + k as real * d, end := t + (k + 1) as real * d)
  }

  /** Each slot lasts `d` and ends where the next one starts. */
  lemma PlacedStep(a: Seg, b: Seg, t: real, k: nat, d: real)
    ensures Placed(a, t, k, d).end - Placed(a, t, k, d).start == d
    ensures Placed(a, t, k, d).end == Placed(b, t, k + 1, d).start
  {
    assert (k + 1) as real * d == k as real * d + d;
  }

  /** L slots of length (t1 - t0) / L from t0 end at t1: slot L - 1 ends there. */
  lemma PlacedEnd(seg: Seg, t0: real, t1: real, len: nat, k: nat, d: real)
    requires len > 0 && k + 1 == len && d == (t1 - t0) / len as real
    ensures Placed(seg, t0, k, d).end == t1
  {
    assert len as real * d == t1 - t0;
  }

  /** Entry `i` after interpolation: a matched entry is kept; an unmatched one is placed in
      slot i - s of the e - s equal slices of [t_before, t_after], where [s, e) is its
      maximal unmatched run. */
  function InterpAt(rs: seq<Seg>, i: nat): Seg
    requires i < |rs|
  {
    if rs[i].matched then rs[i]
    else
      var f := Flags(rs);
      var s := RunStart(f, i);
      var e := RunEnd(f, i);
      Placed(rs[i], TBefore(rs, s), i - s, SliceLength(rs, s, e))
  }

  /** The results after _interpolate_unmatched. */
  function Interpolated(rs: seq<Seg>): (r: seq<Seg>)
    ensures |r| == |rs|
  {
    seq(|rs|, i requires 0 <= i < |rs| => InterpAt(rs, i))
  }

  /** Interpolation keeps one entry per entry; matched entries are unchanged, and an
      unmatched entry changes only its times (its flag stays false). */
  lemma InterpolateKeeps(rs: seq<Seg>)
    ensures var r := Interpolated(rs);
      && (forall i :: 0 <= i < |rs| ==> r[i] == rs[i].(start := r[i].start, end := r[i].end))
      && (forall i :: 0 <= i < |rs| && rs[i].matched ==> r[i] == rs[i])
  {
    var r := Interpolated(rs);
    forall i | 0 <= i < |rs|
      ensures r[i] == rs[i].(start := r[i].start, end := r[i].end)
    {
      assert r[i] == InterpAt(rs, i);
    }
  }

  /** Entry `s + k` of the maximal unmatched run [s, e), before and after interpolation. */
  lemma SlotTimes(rs: seq<Seg>, s: nat, e: nat, k: nat)
    requires IsRun(Flags(rs), s, e) && s + k < e
    ensures InterpAt(rs, s + k) == Placed(rs[s + k], TBefore(rs, s), k, SliceLength(rs, s, e))
  {
    RunOf(Flags(rs), s, e, s + k);
  }

  /** Entries [s, e) placed in consecutive slots of length (t1 - t0) / (e - s) from t0 tile
      [t0, t1]: the first starts at t0, the last ends at t1, each ends where the next starts,
      and each lasts one slot. */
  lemma PlacedTile(r: seq<Seg>, rs: seq<Seg>, s: nat, e: nat, t0: real, t1: real, d: real)
    requires s < e <= |r| == |rs| && d == (t1 - t0) / (e - s) as real
    requires forall i :: s <= i < e ==> r[i] == Placed(rs[i], t0, i - s, d)
    ensures r[s].start == t0
    ensures r[e - 1].end == t1
    ensures forall i :: s <= i < e - 1 ==> r[i].end == r[i + 1].start
    ensures forall i :: s <= i < e ==> r[i].end - r[i].start == d
  {
    forall i | s <= i < e
      ensures i + 1 < e ==> r[i].end == r[i + 1].start
      ensures r[i].end - r[i].start == d
    {
      if i + 1 < e {
        PlacedStep(rs[i], rs[i + 1], t0, i - s, d);
      } else {
        PlacedStep(rs[i], rs[i], t0, i - s, d);
      }
    }
    PlacedEnd(rs[e - 1], t0, t1, e - s, e - 1 - s, d);
  }

  /** Every entry of the maximal unmatched run [s, e) after interpolation. */
  lemma RunPlaced(rs: seq<Seg>, s: nat, e: nat)
    requires IsRun(Flags(rs), s, e)
    ensures forall i :: s <= i < e ==>
      Interpolated(rs)[i] == Placed(rs[i], TBefore(rs, s), i - s, SliceLength(rs, s, e))
  {
    forall i | s <= i < e
      ensures Interpolated(rs)[i] == Placed(rs[i], TBefore(rs, s), i - s, SliceLength(rs, s, e))
    {
      SlotTimes(rs, s, e, i - s);
    }
  }

  /** Each maximal unmatched run of L entries is cut into L contiguous intervals of equal
      length (t_after - t_before) / L, the first starting at t_before and the last ending at
      t_after. */
  lemma InterpolateTiles(rs: seq<Seg>, s: nat, e: nat)
    requires IsRun(Flags(rs), s, e)
    ensures var r := Interpolated(rs);
      && r[s].start == TBefore(rs, s)
      && r[e - 1].end == TAfter(rs, s, e)
      && (forall i :: s <= i < e - 1 ==> r[i].end == r[i + 1].start)
      && (forall i :: s <= i < e ==> r[i].end - r[i].start == SliceLength(rs, s, e))
  {
    RunPlaced(rs, s, e);
    PlacedTile(Interpolated(rs), rs, s, e, TBefore(rs, s), TAfter(rs, s, e), SliceLength(rs, s, e));
  }

  /** _interpolate_unmatched, over the result list in place. */
  method InterpolateUnmatched(results: array<Seg>)
    modifies results
    ensures results[..] == Interpolated(old(results[..]))
  {
    ghost var rs := results[..];
    var n := results.Length;
    var i := 0;
    while i < n
      invariant 0 <= i <= n
      invariant i < n && !rs[i].matched ==> i == 0 || rs[i - 1].matched
      invariant forall k :: 0 <= k < i ==> results[k] == InterpAt(rs, k)
      invariant forall k :: i <= k < n ==> results[k] == rs[k]
    {
      if results[i].matched {
        i := i + 1;
        continue;
      }
      var runStart := i;
      while i < n && !results[i].matched
        invariant runStart <= i <= n
        invariant forall k :: runStart <= k < i ==> !rs[k].matched
      {
        i := i + 1;
      }
      var runEnd := i;
      assert IsRun(Flags(rs), runStart, runEnd);
      InterpolateRun(results, rs, runStart, runEnd);
    }
    assert results[..] == Interpolated(rs);
  }

  /** The body of _interpolate_unmatched for one maximal unmatched run [s, e): t_before,
      t_after and the slice length, then the slots. */
  method InterpolateRun(results: array<Seg>, ghost rs: seq<Seg>, s: nat, e: nat)
    requires results.Length == |rs| && IsRun(Flags(rs), s, e)
    requires s > 0 ==> results[s - 1] == rs[s - 1]
    requires forall m :: s <= m < |rs| ==> results[m] == rs[m]
    modifies results
    ensures forall m :: 0 <= m < s ==> results[m] == old(results[m])
    ensures forall m :: s <= m < e ==> results[m] == InterpAt(rs, m)
    ensures forall m :: e <= m < |rs| ==> results[m] == rs[m]
  {
    var n := results.Length;
    var tBefore := if s > 0 then results[s - 1].end else 0.0;
    var tAfter := if e < n then results[e].start
                  else results[e - 1].end + 2.0 * (e - s) as real;
    var gap := tAfter - tBefore;
    var segDur := gap / (e - s) as real;
    assert tBefore == TBefore(rs, s) && segDur == SliceLength(rs, s, e);
    FillRun(results, rs, s, e, tBefore, segDur);
    forall m | s <= m < e
      ensures results[m] == InterpAt(rs, m)
    {
      SlotTimes(rs, s, e, m - s);
    }
  }

  /** The inner loop of _interpolate_unmatched: the slots of one run [s, e). */
  method FillRun(results: array<Seg>, ghost rs: seq<Seg>, s: nat, e: nat,
                 tBefore: real, segDur: real)
    requires results.Length == |rs| && s <= e <= |rs|
    requires forall m :: s <= m < |rs| ==> results[m] == rs[m]
    modifies results
    ensures forall m :: 0 <= m < s ==> results[m] == old(results[m])
    ensures forall m :: s <= m < e ==> results[m] == Placed(rs[m], tBefore, m - s, segDur)
    ensures forall m :: e <= m < |rs| ==> results[m] == rs[m]
  {
    for k := 0 to e - s
      invariant forall m :: 0 <= m < s ==> results[m] == old(results[m])
      invariant forall m :: s <= m < s + k ==> results[m] == Placed(rs[m], tBefore, m - s, segDur)
      invariant forall m :: s + k <= m < |rs| ==> results[m] == rs[m]
    {
      var idx := s + k;
      results[idx] := results[idx].(start := tBefore + k as real * segDur,
                                    end := tBefore + (k + 1) as real * segDur);
    }
  }

  // ---------------------------------------------------------------------------
  // fix_overlaps
  // ---------------------------------------------------------------------------

  /** The gap fix_overlaps leaves before the next segment's start. */
  const OverlapMargin: real := 0.05

  /** Entry `i` and the next one are both matched, and entry `i` ends after the next one
      starts. */
  predicate Overlaps(rs: seq<Seg>, i: nat)
    requires i < |rs|
  {
    i + 1 < |rs| && rs[i].matched && rs[i + 1].matched && rs[i].end > rs[i + 1].start
  }

  /** `r` is what fix_overlaps makes of entry `i`: only the end can change; an entry that
      overlaps the next matched one gets the end max(start, next start - 0.05), and any
      other entry keeps its end. For an entry whose end is not before its start, the end
      never increases and never drops below the start. */
  predicate FixedEntry(rs: seq<Seg>, i: nat, r: Seg)
    requires i < |rs|
  {
    && r == rs[i].(end := r.end)
    && (Overlaps(rs, i) ==> r.end == MaxReal(rs[i].start, rs[i + 1].start - OverlapMargin))
    && (!Overlaps(rs, i) ==> r.end == rs[i].end)
    && (rs[i].start <= rs[i].end ==> rs[i].start <= r.end <= rs[i].end)
  }

  /** Entry `i` after fix_overlaps. */
  function FixAt(rs: seq<Seg>, i: nat): (r: Seg)
    requires i < |rs|
    ensures FixedEntry(rs, i, r)
  {
    if Overlaps(rs, i)
    then rs[i].(end := MaxReal(rs[i].start, rs[i + 1].start - OverlapMargin))
    else rs[i]
  }

  /** The segments after fix_overlaps: one per segment, each as FixedEntry allows. */
  function FixedOverlaps(rs: seq<Seg>): (r: seq<Seg>)
    ensures |r| == |rs|
    ensures forall i :: 0 <= i < |rs| ==> FixedEntry(rs, i, r[i])
  {
    seq(|rs|, i requires 0 <= i < |rs| => FixAt(rs, i))
  }

  /** After fix_overlaps two consecutive matched entries no longer overlap, as long as the
      first does not start after the second: the first ends by the time the second starts.
      The starts are untouched. */
  lemma FixedNoOverlap(rs: seq<Seg>, i: nat)
    requires i + 1 < |rs| && rs[i].matched && rs[i + 1].matched
    requires rs[i].start <= rs[i + 1].start
    ensures var r := FixedOverlaps(rs);
      r[i].start == rs[i].start && r[i + 1].start == rs[i + 1].start && r[i].end <= r[i + 1].start
  {
    var r := FixedOverlaps(rs);
    assert FixedEntry(rs, i, r[i]) && FixedEntry(rs, i + 1, r[i + 1]);
  }

  /** fix_overlaps is idempotent: a second pass changes nothing. */
  lemma FixedOverlapsIdempotent(rs: seq<Seg>)
    ensures FixedOverlaps(FixedOverlaps(rs)) == FixedOverlaps(rs)
  {
    var r := FixedOverlaps(rs);
    var r2 := FixedOverlaps(r);
    forall i | 0 <= i < |rs|
      ensures r2[i] == r[i]
    {
      assert FixedEntry(rs, i, r[i]) && FixedEntry(r, i, r2[i]);
      if i + 1 < |rs| {
        assert FixedEntry(rs, i + 1, r[i + 1]);
      }
    }
  }

  /** fix_overlaps, over the segment list in place. */
  method FixOverlaps(segments: array<Seg>)
    modifies segments
    ensures segments[..] == FixedOverlaps(old(segments[..]))
  {
    ghost var rs := segments[..];
    var n := segments.Length;
    var i := 0;
    while i < n - 1
      invariant 0 <= i <= if n == 0 then 0 else n - 1
      invariant forall k :: 0 <= k < i ==> segments[k] == FixAt(rs, k)
      invariant forall k :: i <= k < n ==> segments[k] == rs[k]
    {
      if segments[i].matched && segments[i + 1].matched {
        if segments[i].end > segments[i + 1].start {
          segments[i] := segments[i].(end := MaxReal(segments[i].start,
                                                     segments[i + 1].start - OverlapMargin));
        }
      }
      i := i + 1;
    }
    assert forall k :: 0 <= k < n ==> segments[k] == FixAt(rs, k);
  }
}
