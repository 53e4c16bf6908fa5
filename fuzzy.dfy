/** The fuzzy word-F1 scorer of scripts/align_whisper.py (word_match_score). */
module Fuzzy {

  function Min3(a: nat, b: nat, c: nat): (r: nat)
    ensures r <= a && r <= b && r <= c && (r == a || r == b || r == c)
  {
    if a <= b && a <= c then a else if b <= c then b else c
  }

  /** Levenshtein edit distance with unit costs, the distance rapidfuzz's
      `Levenshtein.normalized_similarity` is built on. */
  function Lev(a: string, b: string): nat
    decreases |a| + |b|
  {
    if a == [] then |b|
    else if b == [] then |a|
    else
      Min3(Lev(a[1..], b) + 1, Lev(a, b[1..]) + 1,
           Lev(a[1..], b[1..]) + (if a[0] == b[0] then 0 else 1))
  }

  /** `Levenshtein.normalized_similarity(r, h) >= 0.8`, where the similarity is
      1 - Lev(r, h) / max(|r|, |h|) (1 when both are empty); cleared of the division,
      that is max(|r|, |h|) >= 5 * Lev(r, h). */
  predicate Similar(r: string, h: string) {
    var m := if |r| >= |h| then |r| else |h|;
    m >= 5 * Lev(r, h)
  }

  lemma {:induction false} LevSelf(a: string)
    ensures Lev(a, a) == 0
  {
    if a != [] {
      LevSelf(a[1..]);
    }
  }

  /** Every word is similar to itself. */
  lemma SimilarSelf(a: string)
    ensures Similar(a, a)
  {
    LevSelf(a);
  }

  /** The similarity test word_match_score applies to a reference and a hypothesis word.
      The source calls into rapidfuzz for it; the scorer and everything built on it take
      the test as a parameter, and Similar is the instance the source uses. */
  type Sim = (string, string) -> bool

  ghost predicate Reflexive(sim: Sim) {
    forall w :: sim(w, w)
  }

  /** The source's test is reflexive. */
  lemma SimilarReflexive()
    ensures Reflexive(Similar)
  {
    forall w: string
      ensures Similar(w, w)
    {
      SimilarSelf(w);
    }
  }

  /** The index of the first hypothesis word at or after `j` that is still unclaimed and
      similar to `r`, or |hyp| when there is none: where the inner loop of word_match_score
      stops. */
  function FirstFree(sim: Sim, r: string, hyp: seq<string>, used: seq<bool>, j: nat): (k: nat)
    requires |used| == |hyp| && j <= |hyp|
    ensures j <= k <= |hyp|
    ensures k < |hyp| ==> !used[k] && sim(r, hyp[k])
    ensures forall i :: j <= i < k ==> used[i] || !sim(r, hyp[i])
    decreases |hyp| - j
  {
    if j == |hyp| then j
    else if !used[j] && sim(r, hyp[j]) then j
    else FirstFree(sim, r, hyp, used, j + 1)
  }

  /** The number of claims the greedy matcher makes for `refs`, taken in order, against
      `hyp`, when the hypothesis words marked in `used` are already claimed. */
  function Claims(sim: Sim, refs: seq<string>, hyp: seq<string>, used: seq<bool>): nat
    requires |used| == |hyp|
  {
    if refs == [] then 0
    else
      var k := FirstFree(sim, refs[0], hyp, used, 0);
      if k < |hyp| then 1 + Claims(sim, refs[1..], hyp, used[k := true])
      else Claims(sim, refs[1..], hyp, used)
  }

  /** The number of unclaimed hypothesis words. */
  function Free(used: seq<bool>): nat
  {
    if used == [] then 0 else (if used[0] then 0 else 1) + Free(used[1..])
  }

  function Unclaimed(n: nat): (u: seq<bool>)
    ensures |u| == n
  {
    seq(n, _ => false)
  }

  /** `matches` at the end of word_match_score. */
  function Matches(sim: Sim, refs: seq<string>, hyp: seq<string>): nat
  {
    Claims(sim, refs, hyp, Unclaimed(|hyp|))
  }

  /** The F1 value word_match_score returns: 0 when either list is empty, otherwise the
      harmonic mean of matches/|hyp| and matches/|refs|, which is 2·matches/(|refs|+|hyp|). */
  function Score(sim: Sim, refs: seq<string>, hyp: seq<string>): real
  {
    if refs == [] || hyp == [] then 0.0
    else 2.0 * Matches(sim, refs, hyp) as real / (|refs| + |hyp|) as real
  }

  lemma {:induction false} FreeClaim(used: seq<bool>, k: nat)
    requires k < |used| && !used[k]
    ensures Free(used[k := true]) + 1 == Free(used)
  {
    if k > 0 {
      FreeClaim(used[1..], k - 1);
      assert used[k := true][1..] == used[1..][k - 1 := true];
    }
  }

  lemma {:induction false} FreeBound(used: seq<bool>)
    ensures Free(used) <= |used|
  {
    if used != [] {
      FreeBound(used[1..]);
    }
  }

  lemma {:induction false} FreeUnclaimed(n: nat)
    ensures Free(Unclaimed(n)) == n
  {
    if n > 0 {
      FreeUnclaimed(n - 1);
      assert Unclaimed(n)[1..] == Unclaimed(n - 1);
    }
  }

  /** Each claim takes a different reference word and a different unclaimed hypothesis word. */
  lemma {:induction false} ClaimsBound(sim: Sim, refs: seq<string>, hyp: seq<string>,
                                       used: seq<bool>)
    requires |used| == |hyp|
    ensures Claims(sim, refs, hyp, used) <= |refs|
    ensures Claims(sim, refs, hyp, used) <= Free(used)
  {
    if refs != [] {
      var k := FirstFree(sim, refs[0], hyp, used, 0);
      if k < |hyp| {
        ClaimsBound(sim, refs[1..], hyp, used[k := true]);
        FreeClaim(used, k);
      } else {
        ClaimsBound(sim, refs[1..], hyp, used);
      }
    }
  }

  /** Each hypothesis word is claimed at most once, so matches <= min(|refs|, |hyp|). */
  lemma MatchesBound(sim: Sim, refs: seq<string>, hyp: seq<string>)
    ensures Matches(sim, refs, hyp) <= |refs| && Matches(sim, refs, hyp) <= |hyp|
  {
    ClaimsBound(sim, refs, hyp, Unclaimed(|hyp|));
    FreeUnclaimed(|hyp|);
  }

  /** A ratio of a non-negative number to a positive number no smaller lies in [0, 1]. */
  lemma RatioUnit(x: real, t: real)
    requires 0.0 <= x <= t && t > 0.0
    ensures 0.0 <= x / t <= 1.0
  {
    var q := x / t;
    assert q * t == x;
  }

  /** The score is 0 when either list is empty and lies in [0, 1]. */
  lemma ScoreRange(sim: Sim, refs: seq<string>, hyp: seq<string>)
    ensures 0.0 <= Score(sim, refs, hyp) <= 1.0
    ensures refs == [] || hyp == [] ==> Score(sim, refs, hyp) == 0.0
  {
    if refs != [] && hyp != [] {
      MatchesBound(sim, refs, hyp);
      RatioUnit(2.0 * Matches(sim, refs, hyp) as real, (|refs| + |hyp|) as real);
    }
  }

  /** When the first i hypothesis words are claimed, reference word i claims hypothesis
      word i if that is its own copy. */
  lemma {:induction false} ClaimsIdentical(sim: Sim, w: seq<string>, i: nat)
    requires Reflexive(sim) && i <= |w|
    ensures Claims(sim, w[i..], w, seq(|w|, k requires 0 <= k < |w| => k < i)) == |w| - i
    decreases |w| - i
  {
    var used := seq(|w|, k requires 0 <= k < |w| => k < i);
    if i < |w| {
      assert FirstFree(sim, w[i], w, used, i) == i;
      var k := FirstFree(sim, w[i], w, used, 0);
      assert k == i;
      assert used[i := true] == seq(|w|, k requires 0 <= k < |w| => k < i + 1);
      assert w[i..][1..] == w[i + 1..];
      ClaimsIdentical(sim, w, i + 1);
    }
  }

  /** Every word of a list claims its own copy in an identical transcription. */
  lemma MatchesIdentical(sim: Sim, w: seq<string>)
    requires Reflexive(sim)
    ensures Matches(sim, w, w) == |w|
  {
    ClaimsIdentical(sim, w, 0);
    assert seq(|w|, k requires 0 <= k < |w| => k < 0) == Unclaimed(|w|);
    assert w[0..] == w;
  }

  /** A word list scored against an identical transcription scores 1. */
  lemma ScoreIdentical(sim: Sim, w: seq<string>)
    requires Reflexive(sim) && w != []
    ensures Score(sim, w, w) == 1.0
  {
    MatchesIdentical(sim, w);
    var n := |w| as real;
    assert (|w| + |w|) as real == n + n;
    assert 2.0 * n / (n + n) == 1.0;
  }

  /** For m > 0 matches out of a reference words and b hypothesis words, the harmonic mean of
      precision m/b and recall m/a is 2m/(a+b). */
  lemma F1Closed(m: real, a: real, b: real)
    requires m > 0.0 && a > 0.0 && b > 0.0
    ensures 2.0 * (m / b) * (m / a) / (m / b + m / a) == 2.0 * m / (a + b)
  {
    var p := m / b;
    var q := m / a;
    assert p * b == m;
    assert q * a == m;
    assert (p + q) * (a * b) == m * (a + b) by {
      calc {
        (p + q) * (a * b);
        (p * b) * a + (q * a) * b;
        m * a + m * b;
      }
    }
    var x := 2.0 * p * q / (p + q);
    assert p + q > 0.0;
    assert x * (p + q) == 2.0 * p * q;
    assert x * (m * (a + b)) == 2.0 * m * m by {
      calc {
        x * (m * (a + b));
        x * ((p + q) * (a * b));
        (x * (p + q)) * (a * b);
        (2.0 * p * q) * (a * b);
        2.0 * (p * b) * (q * a);
        2.0 * m * m;
      }
    }
    assert x * (a + b) == 2.0 * m;
  }

  /** The F1 of precision matches/|hyp| and recall matches/|refs|, as word_match_score
      computes it, is Score. */
  lemma F1IsScore(sim: Sim, refs: seq<string>, hyp: seq<string>, matches: nat,
                  precision: real, recall: real)
    requires refs != [] && hyp != [] && matches == Matches(sim, refs, hyp)
    requires precision == matches as real / |hyp| as real
    requires recall == matches as real / |refs| as real
    ensures precision + recall == 0.0 ==> Score(sim, refs, hyp) == 0.0
    ensures precision + recall != 0.0 ==>
      2.0 * precision * recall / (precision + recall) == Score(sim, refs, hyp)
  {
    if matches > 0 {
      F1Closed(matches as real, |refs| as real, |hyp| as real);
    }
  }

  /** One reference word's claims from `i` on: its own claim (if it finds a free similar
      word), then the claims of the words after it. */
  lemma ClaimsStep(sim: Sim, refs: seq<string>, hyp: seq<string>, used: seq<bool>, i: nat)
    requires |used| == |hyp| && i < |refs|
    ensures var k := FirstFree(sim, refs[i], hyp, used, 0);
      Claims(sim, refs[i..], hyp, used)
        == if k < |hyp| then 1 + Claims(sim, refs[i + 1..], hyp, used[k := true])
           else Claims(sim, refs[i + 1..], hyp, used)
  {
    assert refs[i..][0] == refs[i] && refs[i..][1..] == refs[i + 1..];
  }

  /** The inner loop of word_match_score for reference word `r`: claim the first free
      hypothesis word similar to `r`, if any. */
  method ClaimFirst(sim: Sim, r: string, hyp: seq<string>, used: array<bool>)
    returns (claimed: bool)
    requires used.Length == |hyp|
    modifies used
    ensures var k := FirstFree(sim, r, hyp, old(used[..]), 0);
      && claimed == (k < |hyp|)
      && used[..] == if k < |hyp| then old(used[..])[k := true] else old(used[..])
  {
    ghost var before := used[..];
    ghost var k := FirstFree(sim, r, hyp, before, 0);
    var j := 0;
    while j < |hyp|
      invariant 0 <= j <= k
      invariant used[..] == before
      invariant FirstFree(sim, r, hyp, before, j) == k
    {
      if !used[j] && sim(r, hyp[j]) {
        used[j] := true;
        return true;
      }
      j := j + 1;
    }
    return false;
  }

  /** word_match_score: the `used` flags and the `matches` counter of the greedy matcher,
      then the F1 of precision and recall. */
  method WordMatchScore(sim: Sim, refs: seq<string>, hyp: seq<string>) returns (score: real)
    ensures score == Score(sim, refs, hyp)
    ensures 0.0 <= score <= 1.0
  {
    ScoreRange(sim, refs, hyp);
    if refs == [] || hyp == [] {
      return 0.0;
    }
    var used := new bool[|hyp|](_ => false);
    assert used[..] == Unclaimed(|hyp|);
    var matches := 0;
    for i := 0 to |refs|
      invariant matches + Claims(sim, refs[i..], hyp, used[..]) == Matches(sim, refs, hyp)
    {
      ClaimsStep(sim, refs, hyp, used[..], i);
      var claimed := ClaimFirst(sim, refs[i], hyp, used);
      if claimed {
        matches := matches + 1;
      }
    }
    assert refs[|refs|..] == [];
    var precision := matches as real / |hyp| as real;
    var recall := matches as real / |refs| as real;
    F1IsScore(sim, refs, hyp, matches, precision, recall);
    if precision + recall == 0.0 {
      return 0.0;
    }
    score := 2.0 * precision * recall / (precision + recall);
  }
}
