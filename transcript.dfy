/** Conversion of a fetched YouTube transcript into the app's segment list:
    clean_text and convert_to_app_format of scripts/fetch_transcriptions.py, repeated
    unchanged in scripts/fetch_all_transcriptions.py. */
module Transcript {
  import opened Text

  // ---------------------------------------------------------------------------
  // clean_text
  // ---------------------------------------------------------------------------

  /** The index of the first `]` at or after `j` with no newline before it, if any: where
      the lazy `.*?` of `\[.*?\]` stops for a `[` at j - 1 (`.` never matches a newline). */
  function CloseAt(s: string, j: nat): (k: int)
    requires j <= |s|
    ensures k == -1 || (j <= k < |s| && s[k] == ']')
    ensures k != -1 ==> forall i :: j <= i < k ==> s[i] != ']' && s[i] != '\n'
    decreases |s| - j
  {
    if j == |s| || s[j] == '\n' then -1
    else if s[j] == ']' then j
    else CloseAt(s, j + 1)
  }

  /** `re.sub(r'\[.*?\]', '', s)`: scanning left to right, every `[` that a `]` closes on
      the same line is deleted together with that `]` and everything between them. */
  function RemoveBrackets(s: string): (r: string)
    ensures |r| <= |s|
    decreases |s|
  {
    if s == [] then []
    else if s[0] == '[' && CloseAt(s, 1) != -1 then RemoveBrackets(s[CloseAt(s, 1) + 1..])
    else [s[0]] + RemoveBrackets(s[1..])
  }

  /** clean_text: drop the bracketed annotations, then `" ".join(text.split())` and
      `strip()`. */
  function CleanText(text: string): string {
    Strip(JoinSpace(Split(RemoveBrackets(text))))
  }

  /** Stripping a string that neither starts nor ends with whitespace changes nothing. */
  lemma StripTight(s: string)
    requires s == [] || (!IsSpace(s[0]) && !IsSpace(s[|s| - 1]))
    ensures Strip(s) == s
  {
    assert TrimLeft(s) == s;
    assert TrimRight(s) == s;
  }

  /** The whitespace-joined words of a string: single spaces between non-blank text. */
  lemma JoinedTidy(s: string)
    ensures Tidy(JoinSpace(Split(s)))
    ensures Strip(JoinSpace(Split(s))) == JoinSpace(Split(s))
  {
    SplitWords(s);
    JoinTidy(Split(s));
    var r := JoinSpace(Split(s));
    if r != [] {
      assert r[0] == ' ' || !IsSpace(r[0]);
      assert r[|r| - 1] == ' ' || !IsSpace(r[|r| - 1]);
    }
    StripTight(r);
  }

  /** clean_text leaves no leading or trailing whitespace, no whitespace other than single
      spaces, and no run of two spaces. */
  lemma CleanTextTidy(text: string)
    ensures Tidy(CleanText(text))
    ensures CleanText(text) == [] || (!IsSpace(CleanText(text)[0])
                                      && !IsSpace(CleanText(text)[|CleanText(text)| - 1]))
  {
    JoinedTidy(RemoveBrackets(text));
    var r := CleanText(text);
    if r != [] {
      assert r[0] == ' ' || !IsSpace(r[0]);
      assert r[|r| - 1] == ' ' || !IsSpace(r[|r| - 1]);
    }
  }

  /** Without a `[` there is nothing to remove. */
  lemma {:induction false} RemoveBracketsNone(s: string)
    requires forall i :: 0 <= i < |s| ==> s[i] != '['
    ensures RemoveBrackets(s) == s
  {
    if s != [] {
      RemoveBracketsNone(s[1..]);
      assert [s[0]] + s[1..] == s;
    }
  }

  /** On text without a `[`, clean_text only normalises whitespace. */
  lemma CleanTextPlain(text: string)
    requires forall i :: 0 <= i < |text| ==> text[i] != '['
    ensures CleanText(text) == JoinSpace(Split(text))
  {
    RemoveBracketsNone(text);
    JoinedTidy(text);
  }

  // ---------------------------------------------------------------------------
  // convert_to_app_format
  // ---------------------------------------------------------------------------

  /** A transcript snippet: its text, start and duration in seconds. */
  datatype Snippet = Snippet(text: string, start: real, duration: real)

  /** An output segment; the time stamps are kept as seconds. */
  datatype Segment = Segment(text: string, speaker: string, translation: string,
                             startTime: real, endTime: real)

  const DefaultSpeaker: string := "Speaker 1"

  /** A text cleaner; clean_text (CleanText) is the one the source uses. The conversion
      below is written over any cleaner so that proofs about it need not look inside
      clean_text. */
  type Cleaner = string -> string

  /** The end of snippet `i`: start + duration, cut back to the next snippet's start when
      it runs past it. */
  function EndAt(entries: seq<Snippet>, i: nat): real
    requires i < |entries|
  {
    var e := entries[i].start + entries[i].duration;
    if i < |entries| - 1 && e > entries[i + 1].start then entries[i + 1].start else e
  }

  /** The segment snippet `i` becomes. */
  function SegmentAt(clean: Cleaner, entries: seq<Snippet>, i: nat): Segment
    requires i < |entries|
  {
    Segment(clean(entries[i].text), DefaultSpeaker, "", entries[i].start, EndAt(entries, i))
  }

  /** Snippet `i` survives cleaning. */
  predicate Kept(clean: Cleaner, entries: seq<Snippet>, i: nat)
    requires i < |entries|
  {
    clean(entries[i].text) != []
  }

  /** The segments of the first `i` snippets. */
  function ConvertPrefix(clean: Cleaner, entries: seq<Snippet>, i: nat): seq<Segment>
    requires i <= |entries|
  {
    if i == 0 then []
    else ConvertPrefix(clean, entries, i - 1)
         + (if Kept(clean, entries, i - 1) then [SegmentAt(clean, entries, i - 1)] else [])
  }

  /** The indices of the snippets among the first `i` that survive cleaning, in order. */
  function KeptIndices(clean: Cleaner, entries: seq<Snippet>, i: nat): seq<nat>
    requires i <= |entries|
  {
    if i == 0 then []
    else KeptIndices(clean, entries, i - 1) + (if Kept(clean, entries, i - 1) then [i - 1] else [])
  }

  /** convert_to_app_format: the `segments` list. */
  method ConvertToAppFormat(entries: seq<Snippet>) returns (segments: seq<Segment>)
    ensures segments == ConvertPrefix(CleanText, entries, |entries|)
  {
    segments := ConvertLoop(CleanText, entries);
  }

  /** The loop of convert_to_app_format, with cleaner `clean`. */
  method ConvertLoop(clean: Cleaner, entries: seq<Snippet>) returns (segments: seq<Segment>)
    ensures segments == ConvertPrefix(clean, entries, |entries|)
  {
    segments := [];
    for i := 0 to |entries|
      invariant segments == ConvertPrefix(clean, entries, i)
    {
      var startSeconds := entries[i].start;
      var duration := entries[i].duration;
      var endSeconds := startSeconds + duration;
      if i < |entries| - 1 {
        var nextStart := entries[i + 1].start;
        if endSeconds > nextStart {
          endSeconds := nextStart;
        }
      }
      var cleaned := clean(entries[i].text);
      if cleaned == [] {
        continue;
      }
      segments := segments + [Segment(cleaned, DefaultSpeaker, "", startSeconds, endSeconds)];
    }
  }

  /** The output of convert_to_app_format is the segments of the snippets that survive
      cleaning, taken in input order: output segment k comes from the k-th surviving
      snippet, the surviving indices strictly increase, and no more segments come out than
      snippets go in. Every snippet whose text survives cleaning is among them. */
  lemma {:induction false} ConvertKeeps(clean: Cleaner, entries: seq<Snippet>, i: nat)
    requires i <= |entries|
    ensures var out := ConvertPrefix(clean, entries, i);
      var idx := KeptIndices(clean, entries, i);
      && |out| == |idx| <= i
      && (forall k :: 0 <= k < |idx| ==> idx[k] < i && Kept(clean, entries, idx[k])
                                           && out[k] == SegmentAt(clean, entries, idx[k]))
      && (forall k, m :: 0 <= k < m < |idx| ==> idx[k] < idx[m])
      && (forall j :: 0 <= j < i && Kept(clean, entries, j) ==> j in idx)
  {
    if i > 0 {
      ConvertKeeps(clean, entries, i - 1);
    }
  }

  /** Every output segment has speaker "Speaker 1", an empty translation and non-empty,
      tidy text; it starts at its snippet's start and ends at min(start + duration, start of
      the next snippet), or at start + duration for the last snippet, whether or not that
      next snippet is itself dropped. */
  lemma SegmentShape(entries: seq<Snippet>, i: nat)
    requires i < |entries| && Kept(CleanText, entries, i)
    ensures var seg := SegmentAt(CleanText, entries, i);
      var e := entries[i].start + entries[i].duration;
      && seg.speaker == "Speaker 1" && seg.translation == ""
      && seg.text != [] && Tidy(seg.text)
      && seg.startTime == entries[i].start
      && (i + 1 < |entries| ==>
            seg.endTime == (if e <= entries[i + 1].start then e else entries[i + 1].start))
      && (i + 1 == |entries| ==> seg.endTime == e)
  {
    CleanTextTidy(entries[i].text);
  }
}
