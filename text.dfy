/** Character classes, whitespace splitting and stripping as Python's `str` methods do them,
    and the word normalisation that makes reference lines and transcribed words comparable. */
module Text {

  /** A value that may be absent (Python's None). */
  datatype Option<T> = None | Some(value: T)

  /** The characters Python's `str.isspace()` accepts; `str.split()` with no argument and
      `str.strip()` with no argument treat exactly these as whitespace. */
  predicate IsSpace(c: char) {
    var k := c as int;
    (9 <= k <= 13) || (0x1C <= k <= 0x20) || k == 0x85 || k == 0xA0 || k == 0x1680
    || (0x2000 <= k <= 0x200A) || k == 0x2028 || k == 0x2029 || k == 0x202F
    || k == 0x205F || k == 0x3000
  }

  predicate NoSpace(w: string) {
    forall i :: 0 <= i < |w| ==> !IsSpace(w[i])
  }

  /** `s` without its leading whitespace. */
  function TrimLeft(s: string): (r: string)
    ensures |r| <= |s| && r == s[|s| - |r|..]
    ensures r == [] || !IsSpace(r[0])
    ensures forall i :: 0 <= i < |s| - |r| ==> IsSpace(s[i])
  {
    if s != [] && IsSpace(s[0]) then TrimLeft(s[1..]) else s
  }

  /** `s` without its trailing whitespace. */
  function TrimRight(s: string): (r: string)
    ensures |r| <= |s| && r == s[..|r|]
    ensures r == [] || !IsSpace(r[|r| - 1])
    ensures forall i :: |r| <= i < |s| ==> IsSpace(s[i])
  {
    if s != [] && IsSpace(s[|s| - 1]) then TrimRight(s[..|s| - 1]) else s
  }

  /** Python's `s.strip()`. */
  function Strip(s: string): (r: string)
    ensures r == [] || (!IsSpace(r[0]) && !IsSpace(r[|r| - 1]))
  {
    TrimRight(TrimLeft(s))
  }

  /** The longest prefix of `s` that holds no whitespace. */
  function Token(s: string): (w: string)
    ensures |w| <= |s| && w == s[..|w|]
    ensures NoSpace(w)
    ensures |w| == |s| || IsSpace(s[|w|])
  {
    if s == [] || IsSpace(s[0]) then [] else [s[0]] + Token(s[1..])
  }

  /** Python's `s.split()`: the maximal runs of non-whitespace characters, in order. */
  function Split(s: string): (ws: seq<string>)
    decreases |s|
  {
    var t := TrimLeft(s);
    if t == [] then []
    else
      var w := Token(t);
      [w] + Split(t[|w|..])
  }

  /** A word `split()` can return: non-empty and free of whitespace. */
  predicate IsWord(w: string) {
    w != [] && NoSpace(w)
  }

  predicate AllWords(ws: seq<string>) {
    forall k :: 0 <= k < |ws| ==> IsWord(ws[k])
  }

  lemma AllWordsCons(w: string, ws: seq<string>)
    requires IsWord(w) && AllWords(ws)
    ensures AllWords([w] + ws)
  {
    forall k | 0 <= k < |ws| + 1
      ensures IsWord(([w] + ws)[k])
    {
      if k > 0 {
        assert ([w] + ws)[k] == ws[k - 1];
      }
    }
  }

  /** Every word `Split` returns is non-empty and free of whitespace. */
  lemma {:induction false} SplitWords(s: string)
    ensures AllWords(Split(s))
    decreases |s|
  {
    var t := TrimLeft(s);
    if t != [] {
      var w := Token(t);
      SplitWords(t[|w|..]);
      AllWordsCons(w, Split(t[|w|..]));
    }
  }

  /** Python's `" ".join(ws)`. */
  function JoinSpace(ws: seq<string>): (r: string)
    ensures |ws| == 1 ==> r == ws[0]
  {
    if ws == [] then "" else if |ws| == 1 then ws[0] else ws[0] + " " + JoinSpace(ws[1..])
  }

  /** A string with no whitespace other than single spaces between non-blank characters:
      the shape `" ".join(s.split())` always has. */
  predicate Tidy(r: string) {
    && (r == [] || (r[0] != ' ' && r[|r| - 1] != ' '))
    && (forall i :: 0 <= i < |r| ==> r[i] == ' ' || !IsSpace(r[i]))
    && (forall i :: 0 <= i < |r| - 1 ==> !(r[i] == ' ' && r[i + 1] == ' '))
  }

  /** Joining non-empty whitespace-free words with single spaces gives a tidy string. */
  lemma {:induction false} JoinTidy(ws: seq<string>)
    requires AllWords(ws)
    ensures Tidy(JoinSpace(ws))
    ensures JoinSpace(ws) == [] <==> ws == []
  {
    if |ws| > 1 {
      JoinTidy(ws[1..]);
      var tail := JoinSpace(ws[1..]);
      var r := ws[0] + " " + tail;
      assert r == JoinSpace(ws);
      forall i | 0 <= i < |r| - 1
        ensures !(r[i] == ' ' && r[i + 1] == ' ')
      {
        if i < |ws[0]| {
          assert r[i] == ws[0][i];
        } else if i == |ws[0]| {
          assert r[i + 1] == tail[0];
        } else {
          assert r[i] == tail[i - |ws[0]| - 1] && r[i + 1] == tail[i - |ws[0]|];
        }
      }
      forall i | 0 <= i < |r|
        ensures r[i] == ' ' || !IsSpace(r[i])
      {
        if i < |ws[0]| {
          assert r[i] == ws[0][i];
        } else if i > |ws[0]| {
          assert r[i] == tail[i - |ws[0]| - 1];
        }
      }
    }
  }

  /** Whitespace-splitting a string that already holds no whitespace gives back the string
      itself as its only word (or nothing, for the empty string). */
  lemma SplitNoSpace(s: string)
    requires NoSpace(s)
    ensures Split(s) == if s == [] then [] else [s]
  {
    if s != [] {
      assert TrimLeft(s) == s;
      assert Token(s) == s;
      assert s[|s|..] == [];
      assert Split(s[|s|..]) == [];
    }
  }

  // ---------------------------------------------------------------------------
  // Word normalisation (scripts/align_whisper.py, normalize_word / normalize_text)
  // ---------------------------------------------------------------------------

  /** The characters a normalised word may hold: a-z, 0-9 and the apostrophe. */
  predicate IsWordChar(c: char) {
    ('a' <= c <= 'z') || ('0' <= c <= '9') || c == '\''
  }

  predicate AllWordChars(w: string) {
    forall i :: 0 <= i < |w| ==> IsWordChar(w[i])
  }

  /** What `c.lower()` contributes once everything outside [a-z0-9'] is deleted.
      U+0130 lowers to "i" plus a combining dot (dropped by the filter) and U+212A (Kelvin
      sign) lowers to "k"; no other non-ASCII character lowers to a kept character. */
  function LowerKept(c: char): (r: string)
    ensures |r| <= 1 && AllWordChars(r)
    ensures IsWordChar(c) ==> r == [c]
  {
    if 'A' <= c <= 'Z' then [(c as int + 32) as char]
    else if IsWordChar(c) then [c]
    else if c == '\U{0130}' then "i"
    else if c == '\U{212A}' then "k"
    else []
  }

  /** `re.sub(r"[^a-z0-9']", "", w.lower())`. */
  function LowerFilter(w: string): (r: string)
    ensures AllWordChars(r)
  {
    if w == [] then [] else LowerKept(w[0]) + LowerFilter(w[1..])
  }

  /** `s.lstrip(c)`. */
  function LStripChar(s: string, c: char): (r: string)
    ensures |r| <= |s| && r == s[|s| - |r|..]
    ensures r == [] || r[0] != c
  {
    if s != [] && s[0] == c then LStripChar(s[1..], c) else s
  }

  /** `s.rstrip(c)`. */
  function RStripChar(s: string, c: char): (r: string)
    ensures |r| <= |s| && r == s[..|r|]
    ensures r == [] || r[|r| - 1] != c
  {
    if s != [] && s[|s| - 1] == c then RStripChar(s[..|s| - 1], c) else s
  }

  /** `s.strip(c)` for a one-character argument. */
  function StripChar(s: string, c: char): (r: string)
    ensures r == [] || (r[0] != c && r[|r| - 1] != c)
  {
    RStripChar(LStripChar(s, c), c)
  }

  /** normalize_word: lower-case, keep only [a-z0-9'], strip apostrophes at both ends. */
  function NormalizeWord(w: string): (r: string)
    ensures AllWordChars(r)
    ensures r == [] || (r[0] != '\'' && r[|r| - 1] != '\'')
  {
    StripChar(LowerFilter(w), '\'')
  }

  lemma {:induction false} LowerFilterFixes(w: string)
    requires AllWordChars(w)
    ensures LowerFilter(w) == w
  {
    if w != [] {
      LowerFilterFixes(w[1..]);
      assert [w[0]] + w[1..] == w;
    }
  }

  /** normalize_word is idempotent. */
  lemma NormalizeWordIdempotent(w: string)
    ensures NormalizeWord(NormalizeWord(w)) == NormalizeWord(w)
  {
    var n := NormalizeWord(w);
    LowerFilterFixes(n);
    assert LStripChar(n, '\'') == n;
    assert RStripChar(n, '\'') == n;
  }

  /** The characters normalize_text turns into spaces before splitting: em dash, en dash,
      ellipsis, curly double and single quotes, and the ASCII double quote. */
  predicate IsSmartPunct(c: char) {
    c == '\U{2014}' || c == '\U{2013}' || c == '\U{2026}' || c == '\U{201C}'
    || c == '\U{201D}' || c == '\U{2018}' || c == '\U{2019}' || c == '"'
  }

  function ReplaceSmart(s: string): (r: string)
    ensures |r| == |s|
  {
    seq(|s|, i requires 0 <= i < |s| => if IsSmartPunct(s[i]) then ' ' else s[i])
  }

  /** The loop of normalize_text: normalise each token, keep the non-empty ones. */
  function NormalizeAll(ws: seq<string>): seq<string>
  {
    if ws == [] then []
    else
      var n := NormalizeWord(ws[0]);
      (if n == [] then [] else [n]) + NormalizeAll(ws[1..])
  }

  /** normalize_text: the reference words of a line. */
  function NormalizeText(text: string): seq<string>
  {
    NormalizeAll(Split(ReplaceSmart(text)))
  }

  /** A word normalize_text can emit: non-empty and a fixed point of normalize_word. */
  predicate IsNormal(w: string) {
    w != [] && NormalizeWord(w) == w
  }

  predicate AllNormal(ws: seq<string>) {
    forall k :: 0 <= k < |ws| ==> IsNormal(ws[k])
  }

  lemma AllNormalCons(front: seq<string>, ws: seq<string>)
    requires AllNormal(front) && AllNormal(ws)
    ensures AllNormal(front + ws)
  {
    forall k | 0 <= k < |front| + |ws|
      ensures IsNormal((front + ws)[k])
    {
      if k >= |front| {
        assert (front + ws)[k] == ws[k - |front|];
      } else {
        assert (front + ws)[k] == front[k];
      }
    }
  }

  lemma {:induction false} NormalizeAllWords(ws: seq<string>)
    ensures AllNormal(NormalizeAll(ws))
    ensures |NormalizeAll(ws)| <= |ws|
  {
    if ws != [] {
      var n := NormalizeWord(ws[0]);
      var front := if n == [] then [] else [n];
      assert AllNormal(front) by {
        NormalizeWordIdempotent(ws[0]);
      }
      NormalizeAllWords(ws[1..]);
      AllNormalCons(front, NormalizeAll(ws[1..]));
      assert NormalizeAll(ws) == front + NormalizeAll(ws[1..]);
    }
  }

  /** normalize_text never emits an empty word, every word it emits is a fixed point of
      normalize_word, and it emits at most one word per whitespace-separated token. */
  lemma NormalizeTextWords(text: string)
    ensures AllNormal(NormalizeText(text))
    ensures |NormalizeText(text)| <= |Split(ReplaceSmart(text))|
  {
    NormalizeAllWords(Split(ReplaceSmart(text)));
  }
}
