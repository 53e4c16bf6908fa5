# Reverse: 1999 story-dialogue alignment, in Dafny

The repository turns the story text of the game Reverse: 1999 into timed, translated
dialogue for a listening app. This project models the parts of its Python scripts that
compute, and proves what they promise:

- the alignment engine of `scripts/align_whisper.py`. Word normalisation and the
  fuzzy word-list score (`word_match_score`), then the window search
  (`_best_match_in_range`). Pass 1, the greedy cursor scan of `align`, and its copy
  `_quick_greedy_align`. Pass 2, which refills unmatched lines between their matched
  neighbours. Pass 3 (`_interpolate_unmatched`), `fix_overlaps`, gap detection and
  word-list splicing of `auto_fill_gaps`, and the time-stamp arithmetic of `fmt_time`;
- the bookkeeping of the LLM back end in `scripts/llm_align.py`. This covers the
  batches, the word window, span clamping and the width check, the cursor, the results
  dictionary, `_interpolate_unmatched` and the `fmt_time`/`_parse_fmt` pair;
- `extract_content_by_chapter`, the guard and quote stripping of `translate_with_llm`,
  `translate_content_with_llm` and `create_segments` of `scripts/extract_all.py`;
- `clean_text`, `convert_to_app_format` and `seconds_to_timestamp` of
  `scripts/fetch_transcriptions.py`. `scripts/fetch_all_transcriptions.py` repeats them
  unchanged.

Pass 1 of `align` and `_quick_greedy_align` append to a results list; they are methods
whose loops append to a sequence. Code that mutates Python lists in place (pass 2 of
`align`, `_interpolate_unmatched`, `fix_overlaps`, the `used` flags of
`word_match_score`) is modelled as methods over arrays: `Aligner.Align` copies the
pass-1 sequence into an array and runs the later passes on it in place. Each method is proved equal to a specification function on sequences, and the
properties are proved about those functions. The results dictionary of
`align_with_llm` is a `map`. Pure helpers are functions.

Some things lie outside the model: the similarity test of rapidfuzz, the LLM, the
translation API and Whisper re-transcription. Each is a parameter (`Sim`, `Llm`,
`Translator`, `Transcriber`). `Fuzzy.Similar` is the exact instance of `Sim`: the
Levenshtein distance is at most a fifth of the longer word.

Modules: `Text` (splitting, stripping, normalisation), `Fuzzy` (word_match_score),
`Segments` (the shared records), `Runs` (maximal unmatched runs), `Window`/`WindowProofs`,
`Greedy`/`GreedyProofs` (passes 1 and 2), `PostProcess` (pass 3 and fix_overlaps),
`Aligner` (the array methods of `align`), `GapFill`, `LlmAlign`, `Extract`, `Transcript`,
`Clock`.

## Model

| member | source | states |
|---|---|---|
| Text.NormalizeWord | scripts/align_whisper.py:72-77 | the result holds only a-z, 0-9 and apostrophes, and neither starts nor ends with an apostrophe |
| Text.NormalizeWordIdempotent | scripts/align_whisper.py:72-77 | normalising a normalised word changes nothing |
| Text.SplitWords | scripts/align_whisper.py:83 | every word `str.split()` yields is non-empty and free of whitespace |
| Text.NormalizeTextWords | scripts/align_whisper.py:80-89 | normalize_text emits only non-empty words that are fixed points of normalize_word, and never more words than the dash-and-quote-replaced text splits into |
| Fuzzy.SimilarReflexive | scripts/align_whisper.py:106 | every word is similar to itself (normalized similarity 1 >= 0.8) |
| Fuzzy.FirstFree | scripts/align_whisper.py:105-109 | the inner scan stops at an index within the hypothesis, or at its end when no free similar word remains |
| Fuzzy.ClaimsBound | scripts/align_whisper.py:102-109 | the greedy matcher claims at most one hypothesis word per reference word and only words not yet used |
| Fuzzy.MatchesBound | scripts/align_whisper.py:102-109 | matches <= min(len(ref), len(hyp)) |
| Fuzzy.ScoreRange | scripts/align_whisper.py:92-115 | the score lies in [0, 1] and is 0 when either list is empty |
| Fuzzy.ScoreIdentical | scripts/align_whisper.py:92-115 | a non-empty word list scored against an identical transcription scores exactly 1 |
| Fuzzy.F1IsScore | scripts/align_whisper.py:111-115 | the source's precision/recall F1, including its zero guard, equals the closed form 2m/(a+b) used by the model |
| Fuzzy.ClaimFirst | scripts/align_whisper.py:104-109 | one pass of the inner loop claims exactly the first free similar hypothesis word, if any, and changes no other flag |
| Fuzzy.WordMatchScore | scripts/align_whisper.py:92-115 | the loop with its `used` array computes the specified score, which lies in [0, 1] |
| WindowProofs.BestMatchIsBest | scripts/align_whisper.py:499-518 | the result is the lowest-indexed candidate window with the strictly greatest score, or (0.0, start) when none scores above 0 |
| WindowProofs.BestMatchBounds | scripts/align_whisper.py:499-518 | the best score lies in [0, 1]; a positive score's window lies inside the word list, starts in [start, scan bound), and ends before `end` when the range holds n words |
| WindowProofs.BestMatchInRange | scripts/align_whisper.py:499-518 | the scan loop returns the specified best window |
| Greedy.PickAtSoundAt | scripts/align_whisper.py:538-553 | the window search for one line counts its reference words and yields a decision whose span lies inside the list at or after the cursor |
| Greedy.RefillSeg | scripts/align_whisper.py:578-609 | a matched line, a line without words or an empty region (p >= q) is unchanged; a refilled line becomes matched with score >= 0.35, a span of its word count starting in [p, q) inside the list, its words' times, and all else kept |
| GreedyProofs.StepSpec | scripts/align_whisper.py:537-573 | one step keeps the line's text, speaker and translation, matches iff the score reaches 0.35, covers n words from the chosen start and moves the cursor just past them; an unmatched step leaves the cursor |
| GreedyProofs.Pass1Keeps | scripts/align_whisper.py:537-573 | pass 1 gives one result per line, in order, carrying the line's fields; unmatched results keep the placeholder times and no span |
| GreedyProofs.Pass1Ordered | scripts/align_whisper.py:537-573 | matched spans cover the line's word count, take their words' times, strictly increase from line to line and lie inside the word list |
| GreedyProofs.QuickAgrees | scripts/align_whisper.py:257-313 | _quick_greedy_align makes the same match, span and score decisions as pass 1 of align; only unmatched lines get 0.0 times instead of their own |
| GreedyProofs.Pass2At | scripts/align_whisper.py:575-609 | each entry is refilled from its pass-1 value between prev_word_end in the updated results and next_word_start in the pass-1 results |
| GreedyProofs.Pass2Spec | scripts/align_whisper.py:575-609 | pass 2 never changes a matched line, a wordless line or a line without room; a changed line is matched with score >= 0.35 in [prev_word_end, next_word_start) with its words' times and its own text, speaker and translation |
| Aligner.GreedyPass | scripts/align_whisper.py:537-573 | the appending loop builds exactly the pass-1 results |
| Aligner.QuickGreedyAlign | scripts/align_whisper.py:257-313 | the quick alignment is pass 1 with zero placeholder times |
| Aligner.ScanPrev | scripts/align_whisper.py:581-585 | the backward scan returns one past the nearest earlier matched span, or 0 |
| Aligner.ScanNext | scripts/align_whisper.py:587-591 | the forward scan returns the start of the nearest later matched span, or the word count |
| Aligner.RefillUnmatched | scripts/align_whisper.py:575-609 | the in-place pass 2 leaves the array equal to the specified pass 2 of its old contents |
| Aligner.Align | scripts/align_whisper.py:521-621 | align returns a fresh array holding pass 3 of pass 2 of pass 1, and the pass-1 spans lie inside the word list |
| PostProcess.InterpolateKeeps | scripts/align_whisper.py:624-647 | interpolation changes only the times of unmatched results; matched results are kept |
| PostProcess.InterpolateTiles | scripts/align_whisper.py:624-647 | an unmatched run is cut into equal consecutive slices from t_before to t_after, the first starting at t_before and the last ending at t_after |
| PostProcess.InterpolateUnmatched | scripts/align_whisper.py:624-647 | the in-place loop leaves the array equal to the specified interpolation of its old contents |
| PostProcess.FixedOverlaps | scripts/align_whisper.py:654-658 | only ends change: a matched entry that ends after the next matched entry starts gets the end max(start, next start - 0.05), every other entry keeps its end; an end not before its start never increases and never drops below the start |
| PostProcess.FixedNoOverlap | scripts/align_whisper.py:654-658 | after the fix, a matched entry followed by a matched entry that starts no earlier ends by the time that next entry starts, and the starts are unchanged |
| PostProcess.FixedOverlapsIdempotent | scripts/align_whisper.py:654-658 | a second fix_overlaps pass changes nothing |
| PostProcess.FixOverlaps | scripts/align_whisper.py:654-658 | the in-place loop leaves the array equal to the specified fix of its old contents |
| GapFill.GapsSpec | scripts/align_whisper.py:344-384 | a gap is collected iff its run of unmatched lines is maximal, has matched lines on both sides, lasts at least the threshold and has at most five words inside; it spans the neighbours' end and start and carries the run's texts |
| GapFill.GapBounds | scripts/align_whisper.py:372-381 | every collected gap lasts at least the threshold, holds at most five words and has at least one text |
| GapFill.FindGaps | scripts/align_whisper.py:344-384 | the run loop collects exactly the specified gaps, in order |
| GapFill.RunGap | scripts/align_whisper.py:355-384 | the two anchor scans and the two tests yield the gap of one run, or nothing |
| GapFill.InsertPos | scripts/align_whisper.py:446-450 | insert_pos is one past the last word ending at or before the gap start: the word before it ends by then and every word from it on ends later |
| GapFill.InsertPosUnique | scripts/align_whisper.py:446-450 | those two properties determine insert_pos |
| GapFill.SplicedSpec | scripts/align_whisper.py:442-453 | the splice drops exactly the words wholly inside the gap, keeps the rest in order, and puts the patch words, in order, at insert_pos |
| GapFill.OutsideCount | scripts/align_whisper.py:377 | the words counted inside a gap plus the words the splice keeps make up the whole list |
| GapFill.KeepPatchInside | scripts/align_whisper.py:431-432 | a patch word is kept iff it lies wholly inside [gap_start - 1, gap_end + 1] |
| GapFill.FindInsertPos | scripts/align_whisper.py:446-450 | the scan computes insert_pos |
| GapFill.FillOne | scripts/align_whisper.py:426-453 | one pass of the patch loop skips the gap when no patch word survives the filter and splices otherwise |
| GapFill.AutoFillGaps | scripts/align_whisper.py:316-456 | auto_fill_gaps returns the words after filling, in order, each gap found from the quick alignment |
| LlmAlign.BatchesPartition | scripts/llm_align.py:155 | the batches cover the dialogue in order, without gaps or overlaps, each of batch_size lines but the last, which holds between one and batch_size; there are none for an empty dialogue |
| LlmAlign.MakeBatches | scripts/llm_align.py:155 | the comprehension builds exactly those batches |
| LlmAlign.WindowBounds | scripts/llm_align.py:163-164 | the window is a slice of the word list starting at most 20 words before the cursor (exactly 20 when there are that many) and holding at most `window` words |
| LlmAlign.ClampSpan | scripts/llm_align.py:211-213 | clamping yields a span inside the word list and leaves a span that already lies inside unchanged |
| LlmAlign.AnswerOutSpec | scripts/llm_align.py:199-241 | a line is matched iff its answer is a span whose clamped width is at most max(20, 3 * words); the result then carries the clamped span and its words' times, otherwise the line's placeholder |
| LlmAlign.RecordedSpec | scripts/llm_align.py:179-241 | recording a batch adds exactly its lines' keys, gives each its own outcome and leaves every other entry alone |
| LlmAlign.LastEndNone | scripts/llm_align.py:197-237 | last_matched_w_end stays the cursor when no line of the batch is accepted |
| LlmAlign.LastEndOfLast | scripts/llm_align.py:197-237 | last_matched_w_end is the clamped w_end of the last accepted line of the batch, in batch order |
| LlmAlign.CursorStep | scripts/llm_align.py:176-246 | a batch never moves the cursor back nor past the word list; an API error leaves it; a JSON error makes it max(cursor, (last index * n_words) / n_lines); a parsed reply leaves it when nothing is accepted and otherwise makes it one past the last accepted line's clamped w_end when that lies past the cursor |
| LlmAlign.RunBatchesCovers | scripts/llm_align.py:151-246 | after all batches every line has exactly one result, each describing its line, and the cursor lies within the word list |
| LlmAlign.MatchLine | scripts/llm_align.py:202-241 | the per-line body returns the line's specified outcome and reports acceptance exactly when the span passes the width check |
| LlmAlign.MatchBatch | scripts/llm_align.py:196-241 | the per-line loop records the specified outcomes and tracks last_matched_w_end |
| LlmAlign.MarkUnmatched | scripts/llm_align.py:176-194 | a failed batch records every line of it as unmatched |
| LlmAlign.AlignWithLlm | scripts/llm_align.py:137-252 | align_with_llm returns, in dialogue order, the interpolated results of the batch loop |
| LlmAlign.InterpolateKeeps | scripts/llm_align.py:266-327 | only times of unmatched results change; matched results are kept, and with no matched line nothing changes |
| LlmAlign.InterpolateNonNegative | scripts/llm_align.py:326-327 | once some line is matched, every unmatched line gets non-negative times |
| LlmAlign.InterpolateBetween | scripts/llm_align.py:305-311 | between two anchors in order, the L lines of a run take the first L of L + 1 equal consecutive slices from the previous anchor's end |
| LlmAlign.InterpolateAfter | scripts/llm_align.py:312-319 | with only a previous anchor, or anchors out of order, the run takes consecutive 2-second slots from the previous anchor's end |
| LlmAlign.InterpolateBefore | scripts/llm_align.py:320-324 | with only a next anchor far enough from 0, the run takes consecutive 2-second slots ending at the anchor's start |
| LlmAlign.InterpolateBeforeEnd | scripts/llm_align.py:320-327 | with only a next anchor at t1 >= 0, even when slots are clamped at 0, the run's last line ends exactly at t1 and every line lies in [0, t1] |
| LlmAlign.InterpolateUnmatched | scripts/llm_align.py:266-327 | the loop over the results dictionary keeps its keys and leaves it holding the specified interpolation |
| LlmAlign.SlotTimes | scripts/llm_align.py:305-324 | the branches of the inner loop give the specified slot times |
| Extract.ExtractContentByChapter | scripts/extract_all.py:146-177 | missing `chapters` gives []; otherwise one item list per chapter, in order |
| Extract.ChapterItemsSkipsAtMostOne | scripts/extract_all.py:162-171 | only the first chapter, and only for "en" or "kr", loses an item, and at most its first one |
| Extract.TrivialUntranslated | scripts/extract_all.py:201-202 | "...", "…", "!" and "?" come back stripped, whatever the translator would say |
| Extract.TranslateItems | scripts/extract_all.py:273-283 | one translated line per item, in order, each built from its item |
| Extract.TranslateItemsAppend | scripts/extract_all.py:272-283 | translating two item lists in turn is translating their concatenation |
| Extract.TranslateContentWithLlm | scripts/extract_all.py:258-287 | the nested loops give the translated lines of all chapters' items, in order |
| Extract.TranslatedShape | scripts/extract_all.py:258-287 | there are as many lines as items in all chapters, each keeping its speaker and English text; an empty text gets an empty translation without a call |
| Extract.Duration | scripts/extract_all.py:300-301 | the reading time is 0.05 s per character when that lies in [2, 20] seconds, exactly 2 s when it is shorter and exactly 20 s when it is longer |
| Extract.CreateSegments | scripts/extract_all.py:290-314 | the loop computes the specified segments |
| Extract.SegmentsTile | scripts/extract_all.py:290-314 | one segment per line with English text, in order, keeping text, speaker and translation; each lasts its Duration, the first starts at 0 and each starts where the previous ends |
| Extract.NonEmptyFilters | scripts/extract_all.py:296-297 | a line is laid out iff it has English text |
| Transcript.CleanTextTidy | scripts/fetch_transcriptions.py:27-33 | clean_text leaves single spaces between words and no leading, trailing or other whitespace |
| Transcript.CleanTextPlain | scripts/fetch_transcriptions.py:27-33 | on text without "[" clean_text only normalises whitespace |
| Transcript.ConvertToAppFormat | scripts/fetch_transcriptions.py:48-79 | the loop gives the segments of the snippets whose cleaned text is non-empty |
| Transcript.ConvertKeeps | scripts/fetch_transcriptions.py:52-77 | output segment k comes from the k-th snippet that survives cleaning; snippet order is kept, no survivor is lost and there are no more segments than snippets; the same holds for the copy in scripts/fetch_all_transcriptions.py:46-77 |
| Transcript.SegmentShape | scripts/fetch_transcriptions.py:54-76 | a segment has speaker "Speaker 1", empty translation and tidy non-empty text; it starts at its snippet's start and ends at min(start + duration, next snippet's start), or at start + duration for the last |
| Clock.Mod | scripts/align_whisper.py:67-68 | Python's float `%` by a positive divisor lies in [0, divisor) |
| Clock.StampRoundTrip | scripts/align_whisper.py:64-69 | minutes and seconds lie in [0, 60), hours are non-negative for a non-negative time, and h*3600 + m*60 + s gives the time back; the same field split is fmt_time in scripts/llm_align.py:54-59 and seconds_to_timestamp in scripts/fetch_transcriptions.py:19-24, and the recombination is _parse_fmt in scripts/llm_align.py:330-333 |

## Left out

- Input and output: downloading, ffmpeg, Whisper transcription, the word cache,
  scraping, JSON files, `build_output`, `main` and the command lines. They are effects
  outside the computation; the word list and the dialogue are parameters.
- Printing and progress messages are not modelled.
- The LLM and translation API calls, prompt building (`build_word_block`,
  `build_prompt`, the translation prompt) and `parse_llm_response` are left out. The
  calls are the parameters `Llm` and `Translator`. The reply is the `Reply` datatype:
  an API error, a JSON error, or a map from line index to an `Answer`.
- `parse_chapter_content` is left out because it parses scraped HTML. A chapter's
  parsed items are given.
- rapidfuzz's normalized similarity is left out because it is a foreign library. It is
  the parameter `Sim`, and `Fuzzy.Similar` states the intended test exactly.
- Floating point: times are exact `real`s. The rounding of float division, of
  `round(x, 1)` in `create_segments` and of the `05.2f` formatting is not modelled.
  The same holds for the text round trip `fmt_time` → `_parse_fmt`: `Clock` models the
  field arithmetic only.
- LlmAlign.NextCursor: the cursor estimate after a JSON error,
  `int(batch[-1].idx / len(dialogue) * n_words)`, is modelled as the exact integer
  quotient `((hi - 1) * n_words) / n`, without float rounding.
- LlmAlign.AlignWithLlm: requires at least one word and a positive batch size. With no
  words the source indexes `words[-1]` on the first span it clamps, and
  `range(0, n, 0)` raises. The command line stops earlier in both cases.
- LlmAlign.AlignWithLlm: the three key spellings of a reply entry ("7", "D007", "D7")
  are one index. A dialogue line's `idx` is its position.
- A reply that parses as JSON but is not an object is not modelled. The conversion
  `int(entry["w_start"])`, `int(entry["w_end"])` is not modelled either: an entry that
  converts (an integer, a numeric string, a float truncated toward zero, a boolean) is
  the `Span` answer with the converted values. An entry whose lookup or conversion
  raises KeyError, TypeError or ValueError is the `Malformed` answer, and its line stays
  unmatched.
- Aligner.Align: with an empty dialogue the source's summary print divides by
  `n_segs` = 0 and raises. The model returns the empty array.
- GapFill.AutoFillGaps: a failing re-transcription raises in the source. Only the
  temporary file is cleaned up (try/finally), and nothing catches the error. The model
  takes the `Transcriber` result as given, so it has no failure path.
- clean_text is not idempotent: `"[a\nb]"` becomes `"[a b]"`, which a second pass
  removes. So no idempotence is claimed.
- Python's `len` counts code points, and Dafny's `char` is a Unicode scalar value. Case
  folding is modelled only as far as `[^a-z0-9']` keeps characters. `Text.LowerKept`
  lists the characters whose `lower()` contributes one.
- `scripts/fetch_all_transcriptions.py` is the same code as `fetch_transcriptions.py`
  apart from its printing, so it is modelled once.
