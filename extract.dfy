/** The shaping steps of scripts/extract_all.py that sit between the scraped story pages and
    the dialogue file: per-chapter content with the first chapter's stray opening line
    dropped (extract_content_by_chapter), the translation pass over that content
    (translate_content_with_llm and the short-text guard of translate_with_llm), and the
    placeholder timing of the dialogue lines (create_segments). */
module Extract {
  import opened Text

  // ---------------------------------------------------------------------------
  // extract_content_by_chapter
  // ---------------------------------------------------------------------------

  /** A story item as parse_chapter_content returns it: speaker ("" for narration) and text. */
  datatype Item = Item(speaker: string, text: string)

  /** A chapter of the scraped page data: `content` is the chapter's parsed items when the
      chapter has a `content` key (parse_chapter_content is not part of this model). */
  datatype Chapter = Chapter(content: Option<seq<Item>>)

  /** The English epigraph that opens the first chapter. */
  const EnEpigraph: string := "— FRANCIS SCOTT KEY FITZGERALD"
  /** The Korean speaker name 레굴루스 and the word 뭐야 that mark the first chapter's opening
      line in the Korean data. */
  const KrSpeaker: string := "레굴루스"
  const KrMarker: string := "뭐야"

  /** `t` occurs in `s` at or after index `i`. */
  predicate OccursFrom(t: string, s: string, i: nat)
    decreases |s| - i
  {
    i + |t| <= |s| && (s[i..i + |t|] == t || OccursFrom(t, s, i + 1))
  }

  /** Python's `t in s` for strings. */
  predicate Contains(s: string, t: string) {
    OccursFrom(t, s, 0)
  }

  /** The first item is the stray opening line for language `lang`. */
  predicate SkipsFirst(items: seq<Item>, lang: string) {
    && items != []
    && (lang == "en" ==> items[0].text == EnEpigraph)
    && (lang == "kr" ==> items[0].speaker == KrSpeaker && Contains(items[0].text, KrMarker))
    && (lang == "en" || lang == "kr")
  }

  /** The content kept for chapter `i`: [] without a `content` key; for the first chapter,
      its items without the opening line when that line is the language's stray one. */
  function ChapterItems(ch: Chapter, i: nat, lang: string): seq<Item> {
    match ch.content
    case None => []
    case Some(items) =>
      if i == 0 && SkipsFirst(items, lang) then items[1..] else items
  }

  /** extract_content_by_chapter over the page data's `chapters` list (None when the data
      has no `chapters` key). */
  method ExtractContentByChapter(chapters: Option<seq<Chapter>>, lang: string)
    returns (chaptersContent: seq<seq<Item>>)
    ensures chapters.None? ==> chaptersContent == []
    ensures chapters.Some? ==>
      && |chaptersContent| == |chapters.value|
      && forall i :: 0 <= i < |chapters.value| ==>
           chaptersContent[i] == ChapterItems(chapters.value[i], i, lang)
  {
    chaptersContent := [];
    if chapters.None? {
      return;
    }
    var chs := chapters.value;
    for i := 0 to |chs|
      invariant |chaptersContent| == i
      invariant forall k :: 0 <= k < i ==> chaptersContent[k] == ChapterItems(chs[k], k, lang)
    {
      var chapter := chs[i];
      if chapter.content.Some? {
        var chapterContent := chapter.content.value;
        if i == 0 && chapterContent != [] {
          if lang == "en" {
            if chapterContent[0].text == EnEpigraph {
              chapterContent := chapterContent[1..];
            }
          } else if lang == "kr" {
            if chapterContent[0].speaker == KrSpeaker && Contains(chapterContent[0].text, KrMarker) {
              chapterContent := chapterContent[1..];
            }
          }
        }
        chaptersContent := chaptersContent + [chapterContent];
      } else {
        chaptersContent := chaptersContent + [[]];
      }
    }
  }

  /** The skip rule touches only the first chapter and removes at most its first item: every
      chapter's kept content is its parsed content or that content without its first item,
      and only chapter 0 can lose an item. */
  lemma ChapterItemsSkipsAtMostOne(ch: Chapter, i: nat, lang: string)
    requires ch.content.Some?
    ensures var r := ChapterItems(ch, i, lang);
      && (r == ch.content.value || (i == 0 && ch.content.value != [] && r == ch.content.value[1..]))
      && |ch.content.value| - 1 <= |r| <= |ch.content.value|
      && (i != 0 || (lang != "en" && lang != "kr") ==> r == ch.content.value)
  {
  }

  // ---------------------------------------------------------------------------
  // translate_with_llm and translate_content_with_llm
  // ---------------------------------------------------------------------------

  /** The texts translate_with_llm hands back unchanged (after strip) without asking the
      translator. */
  predicate IsTrivialText(t: string) {
    t == "..." || t == "…" || t == "!" || t == "?"
  }

  /** The translator's reply for a speaker and an English text: the reply text, or None
      when the API call raises. The request itself is not part of this model. */
  type Translator = (string, string) -> Option<string>

  /** translate_with_llm: trivial texts come back stripped; otherwise the translator's reply
      with surrounding whitespace, then double quotes, then single quotes, then whitespace
      removed; "" when the call fails. */
  function TranslateWithLlm(tr: Translator, speaker: string, text: string): string {
    var t := Strip(text);
    if IsTrivialText(t) then t
    else match tr(speaker, text)
      case None => ""
      case Some(reply) => Strip(StripChar(StripChar(Strip(reply), '"'), '\''))
  }

  /** A trivial text is returned as is, whatever the translator would say. */
  lemma TrivialUntranslated(tr: Translator, speaker: string, text: string)
    requires IsTrivialText(Strip(text))
    ensures TranslateWithLlm(tr, speaker, text) == Strip(text)
    ensures forall other: Translator ::
      TranslateWithLlm(other, speaker, text) == TranslateWithLlm(tr, speaker, text)
  {
  }

  /** A translated line: speaker, English text and Korean translation. */
  datatype Translated = Translated(speaker: string, text: string, translation: string)

  /** The Korean text for a speaker and an English text. translate_with_llm
      (LineOf(tr)) is the one the source uses; the loops below are written over any
      line translator so that proofs about them need not look inside translate_with_llm. */
  type LineTranslator = (string, string) -> string

  /** translate_with_llm with translator `tr`, as a line translator. */
  function LineOf(tr: Translator): LineTranslator {
    (speaker, text) => TranslateWithLlm(tr, speaker, text)
  }

  /** The translation of one item: an empty text gets an empty translation without a call. */
  function TranslateItem(lt: LineTranslator, it: Item): Translated {
    Translated(it.speaker, it.text, if it.text == [] then "" else lt(it.speaker, it.text))
  }

  /** All items of all chapters, chapter by chapter. */
  function Flatten(chapters: seq<seq<Item>>): (r: seq<Item>)
  {
    if chapters == [] then [] else chapters[0] + Flatten(chapters[1..])
  }

  /** `sum(len(ch) for ch in chapters)`. */
  function TotalItems(chapters: seq<seq<Item>>): nat
  {
    if chapters == [] then 0 else |chapters[0]| + TotalItems(chapters[1..])
  }

  lemma {:induction false} FlattenLength(chapters: seq<seq<Item>>)
    ensures |Flatten(chapters)| == TotalItems(chapters)
  {
    if chapters != [] {
      FlattenLength(chapters[1..]);
    }
  }

  lemma FlattenSnoc(chapters: seq<seq<Item>>, ch: seq<Item>)
    ensures Flatten(chapters + [ch]) == Flatten(chapters) + ch
    decreases |chapters|
  {
    if chapters == [] {
      assert [ch][1..] == [];
    } else {
      assert (chapters + [ch])[1..] == chapters[1..] + [ch];
      FlattenSnoc(chapters[1..], ch);
    }
  }

  /** The translated lines of `items`, in order. */
  function TranslateItems(lt: LineTranslator, items: seq<Item>): (r: seq<Translated>)
    ensures |r| == |items|
    ensures forall k :: 0 <= k < |items| ==> r[k] == TranslateItem(lt, items[k])
  {
    if items == [] then [] else [TranslateItem(lt, items[0])] + TranslateItems(lt, items[1..])
  }

  /** Translating two lists of items one after the other is translating their
      concatenation. */
  lemma TranslateItemsAppend(lt: LineTranslator, a: seq<Item>, b: seq<Item>)
    ensures TranslateItems(lt, a + b) == TranslateItems(lt, a) + TranslateItems(lt, b)
  {
    var l, r := TranslateItems(lt, a + b), TranslateItems(lt, a) + TranslateItems(lt, b);
    forall k | 0 <= k < |l|
      ensures l[k] == r[k]
    {
      if k < |a| {
        assert (a + b)[k] == a[k];
      } else {
        assert (a + b)[k] == b[k - |a|];
      }
    }
  }

  /** translate_content_with_llm: one translated line per item of every chapter, in order. */
  method TranslateContentWithLlm(tr: Translator, enChapters: seq<seq<Item>>)
    returns (allTranslated: seq<Translated>)
    ensures allTranslated == TranslateItems(LineOf(tr), Flatten(enChapters))
  {
    allTranslated := TranslateContent(LineOf(tr), enChapters);
  }

  /** The loops of translate_content_with_llm, with line translator `lt`. */
  method TranslateContent(lt: LineTranslator, enChapters: seq<seq<Item>>)
    returns (allTranslated: seq<Translated>)
    ensures allTranslated == TranslateItems(lt, Flatten(enChapters))
  {
    allTranslated := [];
    for c := 0 to |enChapters|
      invariant allTranslated == TranslateItems(lt, Flatten(enChapters[..c]))
    {
      var chapterTranslated := TranslateChapter(lt, enChapters[c]);
      assert enChapters[..c + 1] == enChapters[..c] + [enChapters[c]];
      FlattenSnoc(enChapters[..c], enChapters[c]);
      TranslateItemsAppend(lt, Flatten(enChapters[..c]), enChapters[c]);
      allTranslated := allTranslated + chapterTranslated;
    }
    assert enChapters[..|enChapters|] == enChapters;
  }

  /** The inner loop of translate_content_with_llm: the lines of one chapter. */
  method TranslateChapter(lt: LineTranslator, chapterContent: seq<Item>)
    returns (lines: seq<Translated>)
    ensures lines == TranslateItems(lt, chapterContent)
  {
    lines := [];
    for j := 0 to |chapterContent|
      invariant lines == TranslateItems(lt, chapterContent[..j])
    {
      var enSpeaker, enText := chapterContent[j].speaker, chapterContent[j].text;
      var line;
      if enText == [] {
        line := Translated(enSpeaker, enText, "");
      } else {
        var krText := lt(enSpeaker, enText);
        line := Translated(enSpeaker, enText, krText);
      }
      assert chapterContent[..j + 1] == chapterContent[..j] + [chapterContent[j]];
      TranslateItemsAppend(lt, chapterContent[..j], [chapterContent[j]]);
      lines := lines + [line];
    }
    assert chapterContent[..|chapterContent|] == chapterContent;
  }

  /** translate_content_with_llm yields as many lines as the chapters hold items in total,
      line k keeping the speaker and text of the k-th item; an empty text gets an empty
      translation and any other text gets translate_with_llm's answer for it. */
  lemma TranslatedShape(tr: Translator, enChapters: seq<seq<Item>>)
    ensures |TranslateItems(LineOf(tr), Flatten(enChapters))| == TotalItems(enChapters)
    ensures forall k :: 0 <= k < |Flatten(enChapters)| ==>
      TranslatedFrom(tr, TranslateItems(LineOf(tr), Flatten(enChapters))[k], Flatten(enChapters)[k])
  {
    FlattenLength(enChapters);
  }

  /** `t` is the translated line of item `it` under translator `tr`. */
  predicate TranslatedFrom(tr: Translator, t: Translated, it: Item) {
    && t.speaker == it.speaker && t.text == it.text
    && (it.text == [] ==> t.translation == "")
    && (it.text != [] ==> t.translation == TranslateWithLlm(tr, it.speaker, it.text))
  }

  // ---------------------------------------------------------------------------
  // create_segments
  // ---------------------------------------------------------------------------

  /** A timed dialogue line. The source rounds both times to one decimal; the model keeps
      them exact. */
  datatype Segment = Segment(startTime: real, endTime: real, text: string, speaker: string,
                             translation: string)

  /** The reading time given to a line of `n` characters: 0.05 s per character, at least 2 s
      and at most 20 s. */
  function Duration(n: nat): (d: real)
    ensures 2.0 <= d <= 20.0
    ensures d == n as real * 0.05 || d == 2.0 || d == 20.0
    ensures 2.0 <= n as real * 0.05 <= 20.0 ==> d == n as real * 0.05
    ensures n as real * 0.05 <= 2.0 ==> d == 2.0
    ensures n as real * 0.05 >= 20.0 ==> d == 20.0
  {
    var x := n as real * 0.05;
    var m := if x < 20.0 then x else 20.0;
    if m > 2.0 then m else 2.0
  }

  /** The segments create_segments makes from `content`, starting the clock at `t`. */
  function SegmentsFrom(content: seq<Translated>, t: real): seq<Segment>
  {
    if content == [] then []
    else if content[0].text == [] then SegmentsFrom(content[1..], t)
    else
      var d := Duration(|content[0].text|);
      [Segment(t, t + d, content[0].text, content[0].speaker, content[0].translation)]
        + SegmentsFrom(content[1..], t + d)
  }

  /** The lines of `content` with a non-empty English text, in order. */
  function NonEmpty(content: seq<Translated>): seq<Translated>
  {
    if content == [] then []
    else (if content[0].text == [] then [] else [content[0]]) + NonEmpty(content[1..])
  }

  /** create_segments: the loop over `content`, with `current_time` carried along. */
  method CreateSegments(content: seq<Translated>) returns (segments: seq<Segment>)
    ensures segments == SegmentsFrom(content, 0.0)
  {
    segments := [];
    var currentTime := 0.0;
    for i := 0 to |content|
      invariant segments + SegmentsFrom(content[i..], currentTime) == SegmentsFrom(content, 0.0)
    {
      assert content[i..][0] == content[i] && content[i..][1..] == content[i + 1..];
      var item := content[i];
      if item.text == [] {
        continue;
      }
      var charCount := |item.text|;
      var duration := Duration(charCount);
      var segment := Segment(currentTime, currentTime + duration, item.text, item.speaker,
                             item.translation);
      segments := segments + [segment];
      currentTime := currentTime + duration;
    }
    assert content[|content|..] == [];
  }

  /** Segment `seg` is line `line` laid out: same text, speaker and translation, lasting the
      line's reading time. */
  predicate Carries(seg: Segment, line: Translated) {
    && seg.text == line.text && seg.speaker == line.speaker
    && seg.translation == line.translation
    && seg.endTime - seg.startTime == Duration(|line.text|)
  }

  /** `segs` lays out `lines` one after the other from time `t`: one segment per line, the
      first starting at `t` and each next one starting where the previous one ends. */
  predicate Tiles(segs: seq<Segment>, lines: seq<Translated>, t: real) {
    && |segs| == |lines|
    && (forall k :: 0 <= k < |segs| ==> Carries(segs[k], lines[k]))
    && (segs != [] ==> segs[0].startTime == t)
    && (forall k :: 0 <= k < |segs| - 1 ==> segs[k].endTime == segs[k + 1].startTime)
  }

  /** Putting one more laid-out line in front of a tiling that starts where it ends. */
  lemma TilesCons(seg: Segment, line: Translated, segs: seq<Segment>, lines: seq<Translated>)
    requires Carries(seg, line) && Tiles(segs, lines, seg.endTime)
    ensures Tiles([seg] + segs, [line] + lines, seg.startTime)
  {
    var s, l := [seg] + segs, [line] + lines;
    forall k | 0 <= k < |s|
      ensures Carries(s[k], l[k])
    {
      if k > 0 {
        assert s[k] == segs[k - 1] && l[k] == lines[k - 1];
      }
    }
    forall k | 0 <= k < |s| - 1
      ensures s[k].endTime == s[k + 1].startTime
    {
      if k > 0 {
        assert s[k] == segs[k - 1] && s[k + 1] == segs[k];
      }
    }
  }

  /** create_segments skips the lines with an empty English text and makes exactly one
      segment per other line, in order, copying its text, speaker and translation; each lasts
      the line's reading time, the first starts at the starting time and each next one starts
      where the previous one ends. */
  lemma {:induction false} SegmentsTile(content: seq<Translated>, t: real)
    ensures Tiles(SegmentsFrom(content, t), NonEmpty(content), t)
  {
    if content != [] {
      if content[0].text == [] {
        SegmentsTile(content[1..], t);
        assert NonEmpty(content) == NonEmpty(content[1..]);
      } else {
        var d := Duration(|content[0].text|);
        SegmentsTile(content[1..], t + d);
        var seg := Segment(t, t + d, content[0].text, content[0].speaker, content[0].translation);
        TilesCons(seg, content[0], SegmentsFrom(content[1..], t + d), NonEmpty(content[1..]));
      }
    }
  }

  /** Every line with text is kept and every kept line has text. */
  lemma {:induction false} NonEmptyFilters(content: seq<Translated>)
    ensures forall x :: x in NonEmpty(content) <==> x in content && x.text != []
  {
    if content != [] {
      NonEmptyFilters(content[1..]);
      assert content == [content[0]] + content[1..];
    }
  }
}
