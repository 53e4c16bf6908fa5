/** The records scripts/align_whisper.py aligns: transcribed words, dialogue lines and the
    aligned segments built from them. Times are exact seconds. */
module Segments {

  /** A transcribed word: its normalised text, the raw text and its time span. */
  datatype Word = Word(text: string, raw: string, start: real, end: real)

  /** A dialogue line as read from the dialogue file, with `speaker`, `translation`,
      `startTime` and `endTime` already defaulted ("" and 0.0) where the file omits them. */
  datatype Line = Line(text: string, speaker: string, translation: string,
                       startTime: real, endTime: real)

  /** AlignedSegment; `wordStart` and `wordEnd` are -1 until the line is matched. */
  datatype Seg = Seg(text: string, speaker: string, translation: string,
                     start: real, end: real, matched: bool, score: real,
                     wordStart: int, wordEnd: int)

  /** The `matched` flags of a list of segments. */
  function Flags(rs: seq<Seg>): (f: seq<bool>)
    ensures |f| == |rs|
    ensures forall i :: 0 <= i < |rs| ==> f[i] == rs[i].matched
  {
    seq(|rs|, i requires 0 <= i < |rs| => rs[i].matched)
  }

  /** An unmatched segment for `line` with placeholder times and the best score seen. */
  function Unmatched(line: Line, start: real, end: real, score: real): Seg {
    Seg(line.text, line.speaker, line.translation, start, end, false, score, -1, -1)
  }

  /** A matched segment names a non-empty word span inside a list of `nw` words. */
  predicate SpanOk(seg: Seg, nw: nat) {
    seg.matched ==> 0 <= seg.wordStart <= seg.wordEnd < nw
  }

  /** Every matched segment names a non-empty word span inside a list of `nw` words. */
  predicate SpansIn(rs: seq<Seg>, nw: nat) {
    forall i :: 0 <= i < |rs| ==> SpanOk(rs[i], nw)
  }

  function Min(a: int, b: int): int { if a <= b then a else b }

  function Max(a: int, b: int): int { if a >= b then a else b }

  function MaxReal(a: real, b: real): real { if a >= b then a else b }
}
