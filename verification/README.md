# Judgment chunk visualizer: section detection and chunking, in Dafny

The chunk visualizer cuts a court judgment into labelled sections and each
section into word-bounded chunks, then emits one record per chunk with the
section name, an id `name_{i}` and the chunk text. The pipeline exists in two
variants, and this project models both.

- **chunking.py.**
  - `split_into_sections` is the markup-driven segmenter. It folds a small
    state machine over the judgment's `<p>` elements:
    - a gate that a `"judgment"` heading opens;
    - the current label, which starts as `"intro"`;
    - a buffer;
    - a label-to-text dict.
  - The fold stops hard at a `"costs"` paragraph. It never stores
    `"legal context"`, and it drops a buffer that holds only its own heading.
  - `sliding_window_preserve_lines` packs whole lines into chunks. This copy
    has no non-empty guard.
  - `spacy_sentence_chunker` packs sentences the same way.
  - `chunk_judgment` assembles the records.
- **app.py.**
  - `split_into_sections` folds over the parts `re.split` gives and switches
    label on every heading part.
  - `sliding_window_preserve_lines` is the guarded copy of the line chunker.
  - `chunk_judgment` skips the sections named `"legal context"` and
    `"costs"`.

The modules:

| module | file | what it holds |
|---|---|---|
| `Text` | text.dfy | The Python string built-ins the code relies on: `isspace`, `split()`, `strip()`, `lower()`, `join`, `splitlines(keepends=True)` and `xs[-k:]`. |
| `Wrappers` | wrappers.dfy | The `Option` the dict lookup and the id parser return. |
| `SectionMap` | section_map.dfy | The `Dict[str, str]` of sections, as an insertion-ordered list of entries. |
| `Packing` | packing.dfy | The greedy word-count packer that the three chunkers share, with its loop invariant. |
| `WindowChunker` | window_chunker.dfy | The two line-window chunkers. |
| `SentenceChunker` | sentence_chunker.dfy | The sentence chunker. |
| `MarkupSegmenter` | markup_segmenter.dfy | chunking.py's segmenter. |
| `PhraseSegmenter` | phrase_segmenter.dfy | app.py's segmenter. |
| `ChunkIds` | chunk_id.dfy | `f"{name}_{i+1}"` and its inverse. |
| `Pipeline` | pipeline.dfy | Both `chunk_judgment`s. |

Three chunkers share one packer. They differ in how a chunk is rendered
(`"".join` or `" ".join`), in the overlap seed, and in whether an empty chunk
may be closed. `Packing.Mode` captures those three differences, and the packer
takes the seed rule as a function value (`Seeder`).

The source's `current_chunk` list is modelled as `Group(seed, body)`:
- `seed` is what the chunk was restarted with after a close;
- `body` is the lines or sentences appended since.

`seed + body` is exactly the source's list.

## Model

| member | source | states |
|---|---|---|
| Text.SplitLinesSpec | chunking.py:110 | `splitlines(keepends=True)` loses nothing: the lines concatenate back to the text, no line is empty, and every line but the last ends in a line boundary. |
| Text.StripBlank | chunking.py:187 | `text.strip()` is empty exactly when every character of the text is whitespace. |
| Text.StripIdempotent | app.py:67 | Stripping a stripped part changes nothing. |
| SectionMap.Put | chunking.py:65 | Assigning to a dict key keeps the key order: an existing key stays where it is, and a new key goes last. |
| SectionMap.PutGet | chunking.py:65 | After `sections[key] = value`, reading `key` gives `value` and every other key reads as before. |
| SectionMap.PutPut | chunking.py:73 | When a label is written twice, the second write wins. |
| SectionMap.PutDistinct | app.py:72 | The dict never holds a key twice. |
| Packing.SeedWordCount | chunking.py:122-128 | `word_count` is reset to the seed's own word count, which is `min(overlap, words of the closed chunk)`, or 0 when overlap is off. The seed is empty exactly when nothing is carried over. |
| Packing.StepKeepsInv | chunking.py:115-131 | One loop iteration keeps the packing invariant:<br>- the items seen so far sit, whole and in order, in the chunk bodies;<br>- `word_count` is the word count of the current chunk, seed included;<br>- every chunk after the first is seeded from its predecessor;<br>- no chunk is over budget unless it holds a single item;<br>- a chunk was closed only because the next item did not fit. |
| Packing.CloseKeepsInv | chunking.py:118-131 | Closing on overflow keeps the invariant. The closed chunk is final, and the new chunk is the seed plus the item that did not fit. |
| Packing.AppendKeepsInv | chunking.py:130-131 | Appending an item that fits keeps the invariant. |
| Packing.Run | chunking.py:115-131 | The invariant holds after any prefix of the items. |
| Packing.Pack | chunking.py:115-134 | The finished list of chunks:<br>- it is empty exactly when there are no items;<br>- its bodies, in order, are exactly the items;<br>- seeds are chained;<br>- every chunk is within budget or holds a single item;<br>- every chunk before the last was closed because the next item did not fit;<br>- bodies are non-empty, except possibly the first body of the unguarded line chunker, which is empty exactly when the first item alone exceeds the budget. |
| Packing.ChunksLayout | chunking.py:118-134 | Each chunk string is the rendering of its seed plus its body. The first seed is empty, and every later seed is the seed rule applied to the previous chunk's text. |
| Packing.ChunkLayoutAt | chunking.py:118-134 | The same, at one index. |
| WindowChunker.OverlapLine | chunking.py:123-128 | The overlap line is empty exactly when overlap is off or the closed window has no words. Its word count is `min(overlap, words of the closed window)`. A non-empty overlap line splits into exactly the last `overlap` words of the closed window. It is those words joined by single spaces, followed by a single `"\n"`. |
| WindowChunker.SlidingWindow | chunking.py:100-136 | The unguarded chunker:<br>- no windows exactly when the text is empty;<br>- no window after the first is `""`;<br>- the first window is `""` exactly when the first line alone has more than `max_tokens` words. |
| WindowChunker.GuardedSlidingWindow | app.py:81-99 | The guarded chunker gives no windows exactly when the text is empty, and it never emits the empty string. |
| WindowChunker.EmptyFirstWindow | chunking.py:118-120 | On the text `"a"` with `max_tokens = 0`, chunking.py's copy emits `""` first. app.py's copy does not. |
| WindowChunker.WindowLayout | chunking.py:115-134 | Every window is the overlap line of the previous window (none for the first), followed by a run of whole lines. Those runs, in order, are exactly the lines of the text. |
| WindowChunker.WindowAt | chunking.py:120-130 | The same, for one window. |
| WindowChunker.SeededWindow | chunking.py:125-127 | A window seeded from `prev` is `prev`'s overlap line followed by its own lines. |
| WindowChunker.SlidingWindowReassembles | chunking.py:110-136 | With overlap 0, concatenating the windows gives back the text exactly. |
| WindowChunker.GuardedSlidingWindowReassembles | app.py:82-98 | The same for app.py's copy. |
| WindowChunker.WindowsShape | app.py:88-98 | Empty text gives no windows. The first window is empty only when unguarded and the first line overflows. |
| SentenceChunker.OverlapTokens | chunking.py:213-219 | The carried-over tokens are a suffix of the closed chunk's words, of length `min(overlap, n)`, or none when overlap is off. |
| SentenceChunker.SentenceChunks | chunking.py:187-227 | Blank text gives exactly `[""]`. Other text gives no chunks exactly when there are no sentences. |
| SentenceChunker.SentenceLayout | chunking.py:205-227 | Every chunk is the `" "`-join of the previous chunk's overlap tokens (none for the first) and a non-empty run of whole sentences. The runs, in order, are exactly the sentences. |
| SentenceChunker.ChunkAt | chunking.py:208-222 | The same, for one chunk. |
| SentenceChunker.SentencesRejoin | chunking.py:205-227 | For non-blank text with overlap 0, joining the chunks with `" "` equals joining the sentences with `" "`. |
| MarkupSegmenter.CostsTerminates | chunking.py:55-56 | Nothing from the first `"costs"` paragraph on changes the result. |
| MarkupSegmenter.SplitStopsAtCosts | chunking.py:52-56 | The same for the raw `<p>` elements: after normalizing, a paragraph reading `"costs"` cuts the judgment off. |
| MarkupSegmenter.BeforeGate | chunking.py:58-69 | Until a `"judgment"` heading is seen, the label stays `"intro"` and nothing is flushed. Every paragraph, heading or not, goes to the buffer. |
| MarkupSegmenter.NoJudgmentMeansIntro | chunking.py:48-73 | Without a `"judgment"` heading before `"costs"`, the result is a single `"intro"` section holding every paragraph, or no section at all when that section is degenerate. |
| MarkupSegmenter.GateOpens | chunking.py:60-69 | The first `"judgment"` heading flushes the preamble under `"intro"` (unless it is degenerate) and starts the `"judgment"` section with the heading's text. |
| MarkupSegmenter.JoinNotLabel | chunking.py:64-65 | A buffer that passes the flush test never joins into, up to case, just its own label. |
| MarkupSegmenter.StepKeepsInv | chunking.py:53-69 | The loop body keeps the section invariant (listed under `SectionsShape`). A heading met while the gate is open adds its label. |
| MarkupSegmenter.ScanPreserves | chunking.py:52-69 | Any invariant the loop body keeps holds after the whole loop, with the labels met once the gate is open. |
| MarkupSegmenter.ScanKeepsInv | chunking.py:52-69 | The section invariant holds after the loop. |
| MarkupSegmenter.SectionsShape | chunking.py:44-75 | Whatever the paragraphs:<br>- no key repeats;<br>- `"legal context"` and `"costs"` are never keys;<br>- every key is `"intro"` or the lower-cased text of a heading met once the gate is open and before `"costs"`;<br>- no value is, up to case, just its own label;<br>- every value under a heading label starts with a line that lower-cases to that label. |
| MarkupSegmenter.SplitIntoSectionsShape | chunking.py:44-75 | The same key facts, stated for the `<p>` elements. |
| MarkupSegmenter.FoldAsRuns | chunking.py:52-73 | Once the gate is open, or is opened by the first paragraph, the loop with its final flush equals the run-by-run definition. |
| MarkupSegmenter.SegmentAsRuns | chunking.py:44-75 | The result is this, with no fold:<br>- the paragraphs before `"costs"` and before the first `"judgment"` heading form the `"intro"` run, headings included;<br>- from that heading on, every heading starts a run of its own text followed by the texts of the non-heading paragraphs after it;<br>- every run is stored in order under its lower-cased heading as its `"\n"`-join, but only when it passes the flush test.<br>So every value is the join of one run of paragraph texts. A label met again holds its last run that passes the test. A run that fails the test leaves the dict unchanged. |
| MarkupSegmenter.ScanOpens | chunking.py:60-61 | Once a `"judgment"` heading has been scanned, the gate stays open. |
| MarkupSegmenter.HeadingOnlyRunDropped | chunking.py:63-69 | Once the gate is open, a heading followed directly by another heading leaves no trace. Its run is only its own text and fails the flush test, so an earlier entry under the same label is not overwritten. |
| PhraseSegmenter.BlankPartIgnored | app.py:67-69 | Inserting a part that strips to nothing anywhere does not change the result. |
| PhraseSegmenter.AdjacentHeadings | app.py:70-74 | A heading directly followed by another heading leaves no entry of its own. |
| PhraseSegmenter.ScanCleaned | app.py:66-69 | Folding over the raw parts is folding over the stripped, non-blank parts. |
| PhraseSegmenter.AbsorbAllSectioned | app.py:66-78 | The fold, with its final flush, agrees with the run-by-run definition from any state. |
| PhraseSegmenter.SplitAsRuns | app.py:63-79 | The result is this, with no fold:<br>- each stripped heading part starts a run of the non-heading parts after it;<br>- the parts before the first heading run under `"Header/Intro"`;<br>- every non-empty run is written to the dict, in order, as its stripped `"\n"`-join, so a repeated heading overwrites the earlier entry. |
| PhraseSegmenter.AbsorbKeepsInv | app.py:70-76 | One non-blank part keeps the section invariant. |
| PhraseSegmenter.AbsorbAllPreserves | app.py:66-76 | Any invariant one part keeps holds after all of them. |
| PhraseSegmenter.SectionsShape | app.py:57-79 | Whatever the parts:<br>- no key repeats;<br>- every key is `"Header/Intro"` or a stripped part that passes the heading test, case kept;<br>- every value is the stripped `"\n"`-join of a non-empty run of stripped, non-blank parts, none of which is a heading. |
| ChunkIds.ParseDecimalOfDecimal | chunking.py:157 | `int(str(n)) == n`. |
| ChunkIds.DecimalOfParseDecimal | chunking.py:157 | `str(int(s)) == s` for digit strings with no leading zero. |
| ChunkIds.ParseChunkIdOfChunkId | chunking.py:157 | Every id `f"{name}_{n}"` reads back as `name` and `n`, even when `name` holds underscores. |
| ChunkIds.ChunkIdOfParseChunkId | app.py:110 | Every string that reads as an id is exactly the id of what it reads as. |
| ChunkIds.ChunkIdInjective | chunking.py:157 | Two ids are equal exactly when their section names and numbers are. |
| Pipeline.Assemble | chunking.py:151-159 | The number of records is the total number of chunks the sections produce. |
| Pipeline.RecordAt | chunking.py:151-159 | Chunk `i` of section `j` is the record at position `Total(sections before j) + i`. It carries the section name, the id `name_{i+1}` and the chunk. So records run section by section in dict order, then chunk by chunk, with ids numbered from 1 without gaps. |
| Pipeline.Locate | chunking.py:151-159 | Every record position comes from exactly such a section `j` and chunk `i`. |
| Pipeline.RecordOf | chunking.py:154-158 | The record at any position is chunk `i` of section `j`, for the `(j, i)` its position locates. |
| Pipeline.IdsUnique | chunking.py:157 | When no section name repeats, no two records share an id. |
| Pipeline.KeptMembers | app.py:105 | The sections kept are exactly those whose lower-cased name is neither `"legal context"` nor `"costs"`. |
| Pipeline.KeptAt | app.py:104-105 | The `a`-th kept section is the dict entry at the `a`-th recorded position. |
| Pipeline.KeptIncreasing | app.py:104-105 | The recorded positions of the kept sections strictly increase. |
| Pipeline.KeptInOrder | app.py:104-112 | The kept sections keep the dict's order. The `a`-th of them is the entry at position `KeptIndices(ss)[a]`, and those positions strictly increase. |
| Pipeline.KeptDistinct | app.py:104-105 | Skipping sections keeps the names distinct. |
| Pipeline.ChunkJudgmentRecords | chunking.py:141-161 | No record belongs to `"legal context"` or `"costs"`. Every record's section is `"intro"` or a heading label. No two records share an id. |
| Pipeline.LegacyChunkJudgmentRecords | app.py:101-113 | No record belongs to a section whose lower-cased name is `"legal context"` or `"costs"`. No record's text is empty. No two records share an id. |

## Left out

- HTML parsing is not modelled (chunking.py:45-47, 53, 58), and the model takes
  the `<p>` elements as given `Paragraph(text, isHeading)` values. This covers
  BeautifulSoup, `find_all("p")`, `get_text()` and the bold-paragraph regular
  expression applied to `str(p)`. The `"\xa0"` replacement and the `strip()`
  are modelled.
- The `re.split` on heading phrases and the `re.match` heading test in app.py
  (lines 58-62, 70) are not modelled. The parts are an input sequence, and the
  test is a function parameter.
- The spaCy sentencizer (chunking.py:193-199) is not modelled. The sentences
  are a parameter of `SentenceChunker.SentenceChunks`, and a function
  parameter of `Pipeline.ChunkJudgment`.
- Text.Lower: only ASCII letters are lower-cased. The comparisons with
  `"costs"`, `"judgment"`, `"legal context"` and the current label
  (chunking.py:55, 60, 64, 72; app.py:105) give the same answers as Python's
  `str.lower`. Python maps only U+0130 and U+212A from non-ASCII to ASCII
  letters: U+0130 becomes `"i"` plus a combining dot, and U+212A becomes
  `"k"`. Neither can produce one of those words. What differs is the label
  stored for a heading with non-ASCII capitals (chunking.py:67). Python
  stores `"ÉTAPE"` as `"étape"`, but the model stores it as `"Étape"`. As a
  result, headings that differ only in the case of non-ASCII letters share
  one key in Python, where the last write wins. In the model they stay
  separate keys, which changes the number of entries and records
  downstream.
- The default arguments `max_tokens=800` and `overlap=100` (chunking.py:100,
  141, 171; app.py:81, 101) are not modelled. Every chunker and pipeline takes
  both values as explicit parameters.
- The HTTP fetch (`get_content_by_id`, app.py:45-52) is left out as I/O.
- The Streamlit page, sidebar settings and hard-coded heading list (app.py:7-40)
  are left out, and so is the main app from app.py:118 onward. They are UI and
  configuration, not logic, and the heading test is a parameter instead.
- The commented-out code (chunking.py:6-42, 78-95) is left out because it is
  never run.
- Packing.Pack: the seed rule is passed as a function value. Its proofs use only
  the fact that the count the rule returns is the seed's word count. The
  concrete rules are `Packing.Seed`, linked to the chunkers through
  `SeederOf`.
- PhraseSegmenter.SectionsShape: "headings never appear in any section's text"
  is stated about the parts. A value is built only from parts that fail the
  heading test. A heading phrase occurring inside a body part's text is not
  ruled out, and the source does not rule it out either.

## Findings

| source | as written | input that shows it | evidently intended | confidence | as-written member | corrected member |
|---|---|---|---|---|---|---|
| chunking.py:118-120 | An overflowing line closes the current chunk even when it is empty, so the first chunk is `""` whenever the first line alone exceeds `max_tokens`. | text `"a"`, `max_tokens = 0`: the first chunk is `""` | Close only a non-empty chunk, as app.py:88 does with `and current_chunk`, and as the sentence chunker does at chunking.py:208. | medium, not executed | WindowChunker.SlidingWindow | WindowChunker.GuardedSlidingWindow |
