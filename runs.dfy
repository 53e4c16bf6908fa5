/** Maximal runs of unmatched entries in a list of matched flags: the unit that
    interpolation (both aligners) and gap detection work on. */
module Runs {

  /** The first index of the unmatched stretch that ends just before `i`: `i` itself when
      `i` is 0 or follows a matched entry. */
  function RunStart(f: seq<bool>, i: nat): (s: nat)
    requires i <= |f|
    ensures s <= i
    ensures s == 0 || f[s - 1]
    ensures forall k :: s <= k < i ==> !f[k]
  {
    if i > 0 && !f[i - 1] then RunStart(f, i - 1) else i
  }

  /** The first index at or after `i` that is matched, or |f|: the exclusive end of the
      unmatched stretch that starts at `i`. */
  function RunEnd(f: seq<bool>, i: nat): (e: nat)
    requires i <= |f|
    ensures i <= e <= |f|
    ensures e == |f| || f[e]
    ensures forall k :: i <= k < e ==> !f[k]
    decreases |f| - i
  {
    if i < |f| && !f[i] then RunEnd(f, i + 1) else i
  }

  /** [s, e) is a maximal run of unmatched entries. */
  predicate IsRun(f: seq<bool>, s: nat, e: nat) {
    && s < e <= |f|
    && (s == 0 || f[s - 1])
    && (e == |f| || f[e])
    && (forall k :: s <= k < e ==> !f[k])
  }

  /** Every index of a maximal run reports the run's own bounds. */
  lemma RunOf(f: seq<bool>, s: nat, e: nat, i: nat)
    requires IsRun(f, s, e) && s <= i < e
    ensures RunStart(f, i) == s && RunEnd(f, i) == e
  {
  }

  /** Every unmatched index lies in exactly one maximal run, the one its bounds name. */
  lemma RunAround(f: seq<bool>, i: nat)
    requires i < |f| && !f[i]
    ensures IsRun(f, RunStart(f, i), RunEnd(f, i + 1))
    ensures RunEnd(f, i) == RunEnd(f, i + 1)
  {
  }

  /** RunStart(f, i) looks only at the entries before `i`. */
  lemma {:induction false} RunStartPrefix(f: seq<bool>, g: seq<bool>, i: nat)
    requires i <= |f| && i <= |g| && f[..i] == g[..i]
    ensures RunStart(f, i) == RunStart(g, i)
  {
    if i > 0 {
      assert f[i - 1] == f[..i][i - 1] == g[..i][i - 1] == g[i - 1];
      assert f[..i - 1] == f[..i][..i - 1];
      assert g[..i - 1] == g[..i][..i - 1];
      RunStartPrefix(f, g, i - 1);
    }
  }

  /** RunEnd(f, i) looks only at the entries from `i` on. */
  lemma {:induction false} RunEndSuffix(f: seq<bool>, g: seq<bool>, i: nat)
    requires i <= |f| == |g| && f[i..] == g[i..]
    ensures RunEnd(f, i) == RunEnd(g, i)
    decreases |f| - i
  {
    if i < |f| {
      assert f[i] == f[i..][0] == g[i..][0] == g[i];
      assert f[i + 1..] == f[i..][1..];
      assert g[i + 1..] == g[i..][1..];
      RunEndSuffix(f, g, i + 1);
    }
  }
}
